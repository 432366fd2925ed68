/** operator<<(std::ostream&, __int128_t), found twice in the repository
    (moderncpp/filesystem.cpp and intersection/statistics.cpp, with the
    same text): the decimal digits of the magnitude are written backwards
    into a 128-character buffer, a '-' goes in front of a negative value,
    and the filled tail of the buffer is handed to the stream buffer with
    sputn. */
module Int128Format {

  const Int128Min: int := -0x8000_0000_0000_0000_0000_0000_0000_0000
  const Int128Max: int := 0x7FFF_FFFF_FFFF_FFFF_FFFF_FFFF_FFFF_FFFF

  /** The values the formatter handles: every __int128 except the minimum,
      whose negation overflows. */
  predicate Formattable(v: int) {
    Int128Min < v <= Int128Max
  }

  /** "0123456789"[n] */
  function DigitChar(n: nat): (c: char)
    requires n < 10
    ensures '0' <= c <= '9' && (c as int) - ('0' as int) == n
  {
    "0123456789"[n]
  }

  /** The decimal digits of n, most significant first. */
  function Digits(n: nat): string
    decreases n
  {
    if n < 10 then [DigitChar(n)] else Digits(n / 10) + [DigitChar(n % 10)]
  }

  /** What the formatter writes for v. */
  function Decimal(v: int): string {
    if v < 0 then "-" + Digits(-v) else Digits(v)
  }

  predicate IsDigit(c: char) {
    '0' <= c <= '9'
  }

  /** The value of one digit, zero for anything else. */
  function DigitValue(c: char): (n: nat)
    ensures n < 10
  {
    if IsDigit(c) then (c as int) - ('0' as int) else 0
  }

  /** The value of a string of decimal digits, read the usual way. */
  function ValueOf(s: string): nat {
    if s == [] then 0 else ValueOf(s[..|s| - 1]) * 10 + DigitValue(s[|s| - 1])
  }

  /** The value of a decimal numeral with an optional leading '-'. */
  function SignedValue(s: string): int {
    if |s| > 0 && s[0] == '-' then -(ValueOf(s[1..]) as int) else ValueOf(s)
  }

  function Pow10(k: nat): (r: nat)
    ensures r >= 1
  {
    if k == 0 then 1 else 10 * Pow10(k - 1)
  }

  /** The digits read back give the number. */
  lemma {:induction false} DigitsRoundTrip(n: nat)
    ensures ValueOf(Digits(n)) == n
    decreases n
  {
    if n >= 10 {
      DigitsRoundTrip(n / 10);
      var s := Digits(n);
      assert s[..|s| - 1] == Digits(n / 10);
    }
  }

  /** At least one digit, nothing but digits, and no leading zero unless
      the number is zero, which is written "0". */
  lemma {:induction false} DigitsShape(n: nat)
    ensures |Digits(n)| >= 1
    ensures forall k :: 0 <= k < |Digits(n)| ==> IsDigit(Digits(n)[k])
    ensures Digits(n)[0] == '0' <==> n == 0
    ensures n == 0 ==> Digits(n) == "0"
    decreases n
  {
    if n >= 10 {
      DigitsShape(n / 10);
    }
  }

  /** A number below 10^k has at most k digits. */
  lemma {:induction false} DigitsLength(n: nat, k: nat)
    requires 1 <= k && n < Pow10(k)
    ensures |Digits(n)| <= k
    decreases k
  {
    if n >= 10 {
      assert k >= 2;
      DigitsLength(n / 10, k - 1);
    }
  }

  /** Every formattable value has at most 39 digits. */
  lemma MagnitudeDigits(v: int)
    requires Formattable(v)
    ensures |Digits(if v < 0 then -v else v)| <= 39
  {
    assert Pow10(13) == 10_000_000_000_000;
    assert Pow10(26) == 100_000_000_000_000_000_000_000_000;
    assert Pow10(39) == 1_000_000_000_000_000_000_000_000_000_000_000_000_000;
    DigitsLength(if v < 0 then -v else v, 39);
  }

  /** What operator<< promises about its text: a '-' exactly for a
      negative value, then the digits of the magnitude with no leading
      zero, at most 40 characters in all, and reading the text back gives
      the value. */
  lemma DecimalFacts(v: int)
    requires Formattable(v)
    ensures |Decimal(v)| <= 40
    ensures Decimal(v)[0] == '-' <==> v < 0
    ensures var m := if v < 0 then Decimal(v)[1..] else Decimal(v);
            m == Digits(if v < 0 then -v else v) &&
            |m| >= 1 && (forall k :: 0 <= k < |m| ==> IsDigit(m[k])) && (m[0] == '0' <==> v == 0)
    ensures SignedValue(Decimal(v)) == v
  {
    var a := if v < 0 then -v else v;
    MagnitudeDigits(v);
    DigitsShape(a);
    DigitsRoundTrip(a);
    if v < 0 {
      assert Decimal(v)[1..] == Digits(a);
    }
  }

  /** The digits still to be written once tmp is left of the magnitude:
      none when tmp is zero. */
  function DigitsLeft(tmp: nat): string {
    if tmp == 0 then [] else Digits(tmp)
  }

  /** One turn of the loop moves the last digit of tmp to the text. */
  lemma DigitsLeftStep(tmp: nat)
    ensures Digits(tmp) == DigitsLeft(tmp / 10) + [DigitChar(tmp % 10)]
  {
  }

  /** One digit written at --d. */
  method Put(buffer: array<char>, d: nat, c: char) returns (d': nat)
    requires 0 < d <= buffer.Length
    modifies buffer
    ensures d' == d - 1 && buffer[d'..] == [c] + old(buffer[d..])
  {
    d' := d - 1;
    buffer[d'] := c;
    assert buffer[d'..] == [c] + buffer[d..];
  }

  /** The buffer-filling part of operator<<: the digits, then the sign.
      On return the text occupies buffer[d..128]. */
  method FillBuffer(value: int) returns (buffer: array<char>, d: nat)
    requires Formattable(value)
    ensures buffer.Length == 128 && d <= 128
    ensures buffer[d..] == Decimal(value) && 128 - d <= 40
  {
    buffer := new char[128];
    var tmp: nat := if value < 0 then -value else value;
    MagnitudeDigits(value);
    d := WriteDigits(buffer, tmp);
    if value < 0 {
      d := Put(buffer, d, '-');
    }
  }

  /** The do-while loop of operator<<: "0123456789"[tmp % 10] written at
      --d until tmp, divided by 10 each turn, reaches zero. One digit is
      written even for zero. */
  method WriteDigits(buffer: array<char>, tmp: nat) returns (d: nat)
    requires buffer.Length == 128 && |Digits(tmp)| <= 39
    modifies buffer
    ensures 89 <= d <= 127 && buffer[d..] == Digits(tmp)
  {
    ghost var magnitude := tmp;
    var t := tmp;
    d := 128;
    assert buffer[d..] == [];
    // the first turn of the do-while, taken whatever t is
    DigitsLeftStep(t);
    d := Put(buffer, d, DigitChar(t % 10));
    t := t / 10;
    while t != 0
      invariant 89 <= d <= 127
      invariant Digits(magnitude) == DigitsLeft(t) + buffer[d..]
      decreases t
    {
      DigitsLeftStep(t);
      d := Put(buffer, d, DigitChar(t % 10));
      t := t / 10;
    }
  }

  /** The error flags of a stream. */
  datatype IoFlag = BadBit | FailBit | EofBit

  /** An output stream: its state flags, the characters its stream buffer
      has taken so far, and how many more characters the buffer takes
      (what sputn will accept). */
  class Ostream {
    var flags: set<IoFlag>
    var text: string
    var room: nat

    constructor (room: nat)
      ensures flags == {} && text == [] && this.room == room
    {
      flags := {};
      text := [];
      this.room := room;
    }

    /** streambuf::sputn(s, n): stores as many of the n characters as
        the buffer takes and returns how many it stored. */
    method Sputn(s: string) returns (n: nat)
      modifies this
      ensures n == if old(room) < |s| then old(room) else |s|
      ensures text == old(text) + s[..n] && room == old(room) - n && flags == old(flags)
    {
      n := if room < |s| then room else |s|;
      text := text + s[..n];
      room := room - n;
    }

    /** dest << value. The sentry lets the write happen only on a good
        stream, and (as libstdc++'s sentry does) adds failbit to a stream
        already marked bad; badbit is set exactly when sputn stores fewer
        characters than the text has. */
    method PutInt128(value: int)
      requires Formattable(value)
      modifies this
      ensures old(flags) != {} ==>
                text == old(text) && room == old(room) &&
                flags == (if BadBit in old(flags) then old(flags) + {FailBit} else old(flags))
      ensures old(flags) == {} ==>
                var s := Decimal(value);
                var n := if old(room) < |s| then old(room) else |s|;
                text == old(text) + s[..n] && room == old(room) - n &&
                flags == (if n < |s| then {BadBit} else {})
    {
      if flags == {} {
        var buffer, d := FillBuffer(value);
        var len := 128 - d;
        var n := Sputn(buffer[d..]);
        if n != len {
          flags := flags + {BadBit};
        }
      } else if BadBit in flags {
        flags := flags + {FailBit};
      }
    }
  }
}
