/** design_patterns/design_pattern_1.cpp: a company of departments of
    workers, edited through commands that an invoker can undo and redo.
    A std::set of names, ordered by std::string's operator<, is kept as
    the strictly ascending sequence it iterates in. Departments are kept
    by value, keyed by name: the department names, and for each the names
    of its workers. A thrown std::logic_error is an outcome carrying its
    message. */
module OrgChart {
  import opened Wrappers
  import opened StrOrder

  /** The contents of a std::set<std::string>-like container, in iteration
      order: no name twice, each less than the next. */
  predicate Ascending(s: seq<string>) {
    forall i, j :: 0 <= i < j < |s| ==> Less(s[i], s[j])
  }

  /** std::set::insert: x goes where the order puts it, and nothing
      happens when an equivalent name is already there. */
  function InsertName(s: seq<string>, x: string): (r: seq<string>)
    ensures |r| >= 1
  {
    if s == [] || Less(x, s[0]) then [x] + s
    else if Less(s[0], x) then [s[0]] + InsertName(s[1..], x)
    else s
  }

  /** std::set::erase of the element found for x. */
  function EraseName(s: seq<string>, x: string): seq<string> {
    if s == [] then []
    else if s[0] == x then s[1..]
    else [s[0]] + EraseName(s[1..], x)
  }

  lemma AscendingTail(s: seq<string>)
    requires Ascending(s) && s != []
    ensures Ascending(s[1..]) && s[0] !in s[1..]
    ensures forall y :: y in s[1..] ==> Less(s[0], y)
  {
    LessIrreflexive(s[0]);
  }

  /** Insertion keeps the order and adds exactly x; a name already there
      leaves the set as it was. */
  lemma {:induction false} InsertNameFacts(s: seq<string>, x: string)
    requires Ascending(s)
    ensures Ascending(InsertName(s, x))
    ensures forall y :: y in InsertName(s, x) <==> y in s || y == x
    ensures x in s ==> InsertName(s, x) == s
    decreases |s|
  {
    if s == [] || Less(x, s[0]) {
      if s != [] {
        AscendingTail(s);
        LessAsymmetric(x, s[0]);
        forall y | y in s
          ensures Less(x, y)
        {
          if y != s[0] {
            LessTransitive(x, s[0], y);
          }
        }
        LessIrreflexive(x);
      }
    } else {
      AscendingTail(s);
      assert s == [s[0]] + s[1..];
      if Less(s[0], x) {
        InsertNameFacts(s[1..], x);
        var r := InsertName(s[1..], x);
        assert InsertName(s, x) == [s[0]] + r;
        forall i, j | 0 <= i < j < |[s[0]] + r|
          ensures Less(([s[0]] + r)[i], ([s[0]] + r)[j])
        {
          if i == 0 {
            assert ([s[0]] + r)[j] in r;
          }
        }
      } else {
        if x != s[0] {
          LessTotal(x, s[0]);
        }
      }
    }
  }

  /** Erasing keeps the order and removes exactly x; a name not there
      leaves the set as it was. */
  lemma {:induction false} EraseNameFacts(s: seq<string>, x: string)
    requires Ascending(s)
    ensures Ascending(EraseName(s, x))
    ensures forall y :: y in EraseName(s, x) <==> y in s && y != x
    ensures x !in s ==> EraseName(s, x) == s
    decreases |s|
  {
    if s != [] {
      AscendingTail(s);
      if s[0] != x {
        EraseNameFacts(s[1..], x);
        var r := EraseName(s[1..], x);
        forall i, j | 0 <= i < j < |[s[0]] + r|
          ensures Less(([s[0]] + r)[i], ([s[0]] + r)[j])
        {
          if i == 0 {
            assert ([s[0]] + r)[j] in r;
          }
        }
      }
    }
  }

  /** An ordered set is determined by its members. */
  lemma {:induction false} AscendingUnique(a: seq<string>, b: seq<string>)
    requires Ascending(a) && Ascending(b)
    requires forall y :: y in a <==> y in b
    ensures a == b
    decreases |a|
  {
    assert a != [] ==> a[0] in a;
    assert b != [] ==> b[0] in b;
    if a != [] {
      assert a[0] in b && b[0] in a;
      var i :| 0 <= i < |a| && a[i] == b[0];
      var j :| 0 <= j < |b| && b[j] == a[0];
      assert i > 0 ==> Less(a[0], b[0]);
      assert j > 0 ==> Less(b[0], a[0]);
      LessAsymmetric(a[0], b[0]);
      LessIrreflexive(a[0]);
      assert a[0] == b[0];
      AscendingTail(a);
      AscendingTail(b);
      assert a == [a[0]] + a[1..] && b == [b[0]] + b[1..];
      forall y
        ensures y in a[1..] <==> y in b[1..]
      {
        assert y in a <==> y == a[0] || y in a[1..];
        assert y in b <==> y == b[0] || y in b[1..];
      }
      AscendingUnique(a[1..], b[1..]);
    }
  }

  /** Erasing a name just inserted gives back the set exactly when the
      name was not in it before. */
  lemma EraseAfterInsert(s: seq<string>, x: string)
    requires Ascending(s)
    ensures EraseName(InsertName(s, x), x) == s <==> x !in s
  {
    InsertNameFacts(s, x);
    EraseNameFacts(InsertName(s, x), x);
    if x !in s {
      AscendingUnique(EraseName(InsertName(s, x), x), s);
    }
  }

  /** Inserting a name again after erasing it gives back the set it was
      erased from. */
  lemma InsertAfterErase(s: seq<string>, x: string)
    requires Ascending(s) && x in s
    ensures InsertName(EraseName(s, x), x) == s
  {
    EraseNameFacts(s, x);
    InsertNameFacts(EraseName(s, x), x);
    AscendingUnique(InsertName(EraseName(s, x), x), s);
  }

  /** The company's departments as values: the names in set order and,
      for each, its workers in set order. */
  datatype Chart = Chart(depts: seq<string>, staff: map<string, seq<string>>)

  /** The invariant of the two std::sets: every department has a worker
      set, both kept in ascending order. */
  ghost predicate ValidChart(c: Chart) {
    Ascending(c.depts) && (forall d :: d in c.staff <==> d in c.depts) &&
    forall d :: d in c.staff ==> Ascending(c.staff[d])
  }

  /** Company::newdp */
  function NewDp(c: Chart, dp: string): (r: Result<Chart, string>)
    ensures r.Failure? <==> dp in c.depts
    ensures r.Failure? ==> r.error == "There is a dept with the same name " + dp
    ensures r.Success? ==> r.value.staff == c.staff[dp := []]
  {
    if dp in c.depts then Failure("There is a dept with the same name " + dp)
    else Success(Chart(InsertName(c.depts, dp), c.staff[dp := []]))
  }

  /** Company::deldp: the department goes, with its workers. */
  function DelDp(c: Chart, dp: string): (r: Result<Chart, string>)
    ensures r.Failure? <==> dp !in c.depts
    ensures r.Failure? ==> r.error == "There was no dept with name " + dp
    ensures r.Success? ==> r.value.staff == c.staff - {dp}
  {
    if dp !in c.depts then Failure("There was no dept with name " + dp)
    else Success(Chart(EraseName(c.depts, dp), c.staff - {dp}))
  }

  /** Company::newwrk, through Department::newwrk. */
  function NewWrk(c: Chart, dpt: string, wrk: string): (r: Result<Chart, string>)
    ensures r.Failure? <==> dpt !in c.depts || dpt !in c.staff
    ensures r.Failure? ==> r.error == "There was no dept with name " + dpt
    ensures r.Success? ==> r.value.depts == c.depts && r.value.staff.Keys == c.staff.Keys &&
                           forall d :: d in c.staff && d != dpt ==> r.value.staff[d] == c.staff[d]
  {
    if dpt !in c.depts || dpt !in c.staff then Failure("There was no dept with name " + dpt)
    else Success(c.(staff := c.staff[dpt := InsertName(c.staff[dpt], wrk)]))
  }

  /** Company::delwrk, through Department::delwrk. */
  function DelWrk(c: Chart, dpt: string, wrk: string): (r: Result<Chart, string>)
    ensures r.Failure? <==> dpt !in c.depts || dpt !in c.staff || wrk !in c.staff[dpt]
    ensures r.Failure? && dpt in c.depts && dpt in c.staff ==> r.error == "There was no worker with name " + wrk
    ensures r.Failure? && (dpt !in c.depts || dpt !in c.staff) ==> r.error == "There was no dept with name " + dpt
    ensures r.Success? ==> r.value.depts == c.depts && r.value.staff.Keys == c.staff.Keys &&
                           forall d :: d in c.staff && d != dpt ==> r.value.staff[d] == c.staff[d]
  {
    if dpt !in c.depts || dpt !in c.staff then Failure("There was no dept with name " + dpt)
    else if wrk !in c.staff[dpt] then Failure("There was no worker with name " + wrk)
    else Success(c.(staff := c.staff[dpt := EraseName(c.staff[dpt], wrk)]))
  }

  /** newdp adds exactly one department, with no workers, and keeps the
      invariant. */
  lemma NewDpFacts(c: Chart, dp: string)
    requires ValidChart(c) && dp !in c.depts
    ensures ValidChart(NewDp(c, dp).value)
    ensures forall d :: d in NewDp(c, dp).value.depts <==> d in c.depts || d == dp
    ensures |NewDp(c, dp).value.depts| == |c.depts| + 1
  {
    InsertNameFacts(c.depts, dp);
    InsertLength(c.depts, dp);
  }

  lemma {:induction false} InsertLength(s: seq<string>, x: string)
    requires Ascending(s) && x !in s
    ensures |InsertName(s, x)| == |s| + 1
    decreases |s|
  {
    if s != [] && !Less(x, s[0]) {
      AscendingTail(s);
      if Less(s[0], x) {
        InsertLength(s[1..], x);
      } else {
        LessTotal(x, s[0]);
      }
    }
  }

  /** deldp removes exactly that department and keeps the invariant. */
  lemma DelDpFacts(c: Chart, dp: string)
    requires ValidChart(c) && dp in c.depts
    ensures ValidChart(DelDp(c, dp).value)
    ensures forall d :: d in DelDp(c, dp).value.depts <==> d in c.depts && d != dp
  {
    EraseNameFacts(c.depts, dp);
  }

  /** newwrk has set semantics: the worker is added once, an existing one
      leaves the department as it was. */
  lemma NewWrkFacts(c: Chart, dpt: string, wrk: string)
    requires ValidChart(c) && dpt in c.depts
    ensures ValidChart(NewWrk(c, dpt, wrk).value)
    ensures forall w :: w in NewWrk(c, dpt, wrk).value.staff[dpt] <==> w in c.staff[dpt] || w == wrk
    ensures wrk in c.staff[dpt] ==> NewWrk(c, dpt, wrk).value == c
  {
    InsertNameFacts(c.staff[dpt], wrk);
    if wrk in c.staff[dpt] {
      assert c.staff[dpt := c.staff[dpt]] == c.staff;
    }
  }

  /** delwrk removes exactly that worker and keeps the invariant. */
  lemma DelWrkFacts(c: Chart, dpt: string, wrk: string)
    requires ValidChart(c) && dpt in c.depts && wrk in c.staff[dpt]
    ensures ValidChart(DelWrk(c, dpt, wrk).value)
    ensures forall w :: w in DelWrk(c, dpt, wrk).value.staff[dpt] <==> w in c.staff[dpt] && w != wrk
  {
    EraseNameFacts(c.staff[dpt], wrk);
  }

  /** The commands of the invoker: AddDeptCommand and AddWorkerCommand. */
  datatype Command = AddDeptCommand(name: string) | AddWorkerCommand(dpt: string, wrk: string)

  /** Command::Execute */
  function Execute(c: Chart, cmd: Command): Result<Chart, string> {
    match cmd
    case AddDeptCommand(name) => NewDp(c, name)
    case AddWorkerCommand(dpt, wrk) => NewWrk(c, dpt, wrk)
  }

  /** Command::unExecute */
  function UnExecute(c: Chart, cmd: Command): Result<Chart, string> {
    match cmd
    case AddDeptCommand(name) => DelDp(c, name)
    case AddWorkerCommand(dpt, wrk) => DelWrk(c, dpt, wrk)
  }

  /** Undoing a department just added restores the company as it was. */
  lemma UndoAddDept(c: Chart, d: string)
    requires ValidChart(c) && Execute(c, AddDeptCommand(d)).Success?
    ensures UnExecute(Execute(c, AddDeptCommand(d)).value, AddDeptCommand(d)) == Success(c)
  {
    var c' := NewDp(c, d).value;
    InsertNameFacts(c.depts, d);
    EraseAfterInsert(c.depts, d);
    assert d !in c.staff;
    assert c.staff[d := []] - {d} == c.staff;
  }

  /** Undoing a worker just added restores the company exactly when the
      worker was not in the department before: undoing the addition of a
      worker already there removes that worker. */
  lemma UndoAddWorker(c: Chart, d: string, w: string)
    requires ValidChart(c) && Execute(c, AddWorkerCommand(d, w)).Success?
    ensures UnExecute(Execute(c, AddWorkerCommand(d, w)).value, AddWorkerCommand(d, w)) == Success(c) <==>
            w !in c.staff[d]
    ensures w in c.staff[d] ==>
              UnExecute(Execute(c, AddWorkerCommand(d, w)).value, AddWorkerCommand(d, w)) ==
              Success(c.(staff := c.staff[d := EraseName(c.staff[d], w)]))
  {
    var s := c.staff[d];
    InsertNameFacts(s, w);
    EraseAfterInsert(s, w);
    var c' := NewWrk(c, d, w).value;
    var u := DelWrk(c', d, w);
    assert u.Success?;
    if w !in s {
      assert c.staff[d := InsertName(s, w)][d := EraseName(InsertName(s, w), w)] == c.staff;
    } else {
      assert c' == c;
      assert u.value.staff[d] != s;
    }
  }

  /** Redoing a command right after undoing it brings back the company as
      the command had left it. */
  lemma RedoAfterUndo(c: Chart, cmd: Command)
    requires ValidChart(c) && Execute(c, cmd).Success?
    ensures var c' := Execute(c, cmd).value;
            UnExecute(c', cmd).Success? && Execute(UnExecute(c', cmd).value, cmd) == Success(c')
  {
    match cmd
    case AddDeptCommand(d) =>
      UndoAddDept(c, d);
    case AddWorkerCommand(d, w) =>
      var s := c.staff[d];
      InsertNameFacts(s, w);
      var c' := NewWrk(c, d, w).value;
      InsertAfterErase(InsertName(s, w), w);
      var u := DelWrk(c', d, w).value;
      assert u.staff[d := InsertName(EraseName(InsertName(s, w), w), w)] == c'.staff;
  }

  /** Worker::repr */
  /** The marks in front of the company's, a department's and a worker's
      name. */
  const CompanyMark := ">>>>"
  const DeptMark := "    ===="
  const WorkerMark := "        ----"

  function WorkerRepr(w: string): string {
    WorkerMark + w + "\n"
  }

  /** The workers' lines, in set order. */
  function WorkersText(ws: seq<string>): string {
    if ws == [] then "" else WorkersText(ws[..|ws| - 1]) + WorkerRepr(ws[|ws| - 1])
  }

  /** Department::repr */
  function DeptText(d: string, ws: seq<string>): string {
    DeptMark + d + "\n" + WorkersText(ws)
  }

  /** The departments' texts, in set order. */
  function DeptsText(c: Chart, ds: seq<string>): string
    requires forall d :: d in ds ==> d in c.staff
  {
    if ds == [] then "" else DeptsText(c, ds[..|ds| - 1]) + DeptText(ds[|ds| - 1], c.staff[ds[|ds| - 1]])
  }

  /** What Company::show prints. */
  function ShowText(name: string, c: Chart): string
    requires forall d :: d in c.depts ==> d in c.staff
  {
    CompanyMark + name + "\n" + DeptsText(c, c.depts)
  }

  /** The workers of the listed departments, counted. */
  function Headcount(c: Chart, ds: seq<string>): nat
    requires forall d :: d in ds ==> d in c.staff
  {
    if ds == [] then 0 else Headcount(c, ds[..|ds| - 1]) + |c.staff[ds[|ds| - 1]]|
  }

  /** No name holds a line break. */
  predicate SingleLineNames(c: Chart) {
    (forall d :: d in c.staff ==> '\n' !in d) &&
    forall d, w :: d in c.staff && w in c.staff[d] ==> '\n' !in w
  }

  /** The number of line breaks in s. */
  function Breaks(s: string): nat {
    if s == [] then 0 else Breaks(s[..|s| - 1]) + if s[|s| - 1] == '\n' then 1 else 0
  }

  lemma {:induction false} BreaksAppend(a: string, b: string)
    ensures Breaks(a + b) == Breaks(a) + Breaks(b)
    decreases |b|
  {
    if b == [] {
      assert a + b == a;
    } else {
      var init := b[..|b| - 1];
      assert (a + b)[..|a + b| - 1] == a + init;
      assert (a + b)[|a + b| - 1] == b[|b| - 1];
      BreaksAppend(a, init);
    }
  }

  lemma {:induction false} NoBreaks(s: string)
    requires '\n' !in s
    ensures Breaks(s) == 0
    decreases |s|
  {
    if s != [] {
      NoBreaks(s[..|s| - 1]);
    }
  }

  /** A prefix and a name with no line break, then one. */
  lemma OneLine(prefix: string, name: string)
    requires '\n' !in prefix && '\n' !in name
    ensures Breaks(prefix + name + "\n") == 1
  {
    BreaksAppend(prefix, name);
    BreaksAppend(prefix + name, "\n");
    NoBreaks(prefix);
    NoBreaks(name);
  }

  lemma {:induction false} WorkersLines(ws: seq<string>)
    requires forall w :: w in ws ==> '\n' !in w
    ensures Breaks(WorkersText(ws)) == |ws|
    decreases |ws|
  {
    if ws != [] {
      var init := ws[..|ws| - 1];
      assert forall w :: w in init ==> w in ws;
      WorkersLines(init);
      BreaksAppend(WorkersText(init), WorkerRepr(ws[|ws| - 1]));
      OneLine(WorkerMark, ws[|ws| - 1]);
    }
  }

  lemma {:induction false} DeptsLines(c: Chart, ds: seq<string>)
    requires forall d :: d in ds ==> d in c.staff
    requires SingleLineNames(c)
    ensures Breaks(DeptsText(c, ds)) == |ds| + Headcount(c, ds)
    decreases |ds|
  {
    if ds != [] {
      var init := ds[..|ds| - 1];
      var d := ds[|ds| - 1];
      assert forall x :: x in init ==> x in ds;
      DeptsLines(c, init);
      WorkersLines(c.staff[d]);
      OneLine(DeptMark, d);
      BreaksAppend(DeptMark + d + "\n", WorkersText(c.staff[d]));
      BreaksAppend(DeptsText(c, init), DeptText(d, c.staff[d]));
    }
  }

  /** Company::show writes one line for the company, one per department
      and one per worker. */
  lemma ShowLines(name: string, c: Chart)
    requires forall d :: d in c.depts ==> d in c.staff
    requires SingleLineNames(c) && '\n' !in name
    ensures Breaks(ShowText(name, c)) == 1 + |c.depts| + Headcount(c, c.depts)
  {
    DeptsLines(c, c.depts);
    OneLine(CompanyMark, name);
    BreaksAppend(CompanyMark + name + "\n", DeptsText(c, c.depts));
  }

  /** The outcome of one call: done, refused with a message on standard
      error (the call changes nothing), or a std::logic_error thrown with
      its message. */
  datatype Outcome = Done | Refused(message: string) | Thrown(message: string)

  function OutcomeOf(r: Result<Chart, string>): Outcome {
    if r.Success? then Done else Thrown(r.error)
  }

  /** The company after a call: the new one, or the old one when the call
      threw before changing anything. */
  function After(c: Chart, r: Result<Chart, string>): Chart {
    if r.Success? then r.value else c
  }

  /** Department::repr: the header line, then one line per worker. */
  method DepartmentRepr(d: string, ws: seq<string>) returns (s: string)
    ensures s == DeptText(d, ws)
  {
    s := DeptMark + d + "\n";
    var i := 0;
    while i < |ws|
      invariant 0 <= i <= |ws|
      invariant s == DeptMark + d + "\n" + WorkersText(ws[..i])
    {
      assert ws[..i + 1][..i] == ws[..i];
      s := s + WorkerRepr(ws[i]);
      i := i + 1;
    }
    assert ws[..i] == ws;
  }

  /** The loop of Company::show over the departments, in set order. */
  method DepartmentsRepr(c: Chart) returns (s: string)
    requires forall d :: d in c.depts ==> d in c.staff
    ensures s == DeptsText(c, c.depts)
  {
    s := "";
    var i := 0;
    while i < |c.depts|
      invariant 0 <= i <= |c.depts|
      invariant s == DeptsText(c, c.depts[..i])
    {
      assert c.depts[..i + 1][..i] == c.depts[..i];
      var r := DepartmentRepr(c.depts[i], c.staff[c.depts[i]]);
      s := s + r;
      i := i + 1;
    }
    assert c.depts[..i] == c.depts;
  }

  class Company {
    const name: string
    var depts: seq<string>
    var staff: map<string, seq<string>>

    function State(): Chart
      reads this
    {
      Chart(depts, staff)
    }

    ghost predicate Valid()
      reads this
    {
      ValidChart(State())
    }

    /** Company(): the company "Roga i kopita", with no department. */
    constructor ()
      ensures name == "Roga i kopita" && State() == Chart([], map[]) && Valid()
    {
      name := "Roga i kopita";
      depts := [];
      staff := map[];
    }

    /** Applies the outcome of one of the four operations. */
    method Apply(r: Result<Chart, string>) returns (o: Outcome)
      modifies this
      ensures o == OutcomeOf(r) && State() == After(old(State()), r)
    {
      o := OutcomeOf(r);
      if r.Success? {
        depts, staff := r.value.depts, r.value.staff;
      }
    }

    method Newdp(dp: string) returns (o: Outcome)
      requires Valid()
      modifies this
      ensures Valid()
      ensures o == OutcomeOf(NewDp(old(State()), dp)) && State() == After(old(State()), NewDp(old(State()), dp))
    {
      if dp !in depts {
        NewDpFacts(State(), dp);
      }
      o := Apply(NewDp(State(), dp));
    }

    method Deldp(dp: string) returns (o: Outcome)
      requires Valid()
      modifies this
      ensures Valid()
      ensures o == OutcomeOf(DelDp(old(State()), dp)) && State() == After(old(State()), DelDp(old(State()), dp))
    {
      if dp in depts {
        DelDpFacts(State(), dp);
      }
      o := Apply(DelDp(State(), dp));
    }

    method Newwrk(dpt: string, wrk: string) returns (o: Outcome)
      requires Valid()
      modifies this
      ensures Valid()
      ensures o == OutcomeOf(NewWrk(old(State()), dpt, wrk)) && State() == After(old(State()), NewWrk(old(State()), dpt, wrk))
    {
      if dpt in depts {
        NewWrkFacts(State(), dpt, wrk);
      }
      o := Apply(NewWrk(State(), dpt, wrk));
    }

    method Delwrk(dpt: string, wrk: string) returns (o: Outcome)
      requires Valid()
      modifies this
      ensures Valid()
      ensures o == OutcomeOf(DelWrk(old(State()), dpt, wrk)) && State() == After(old(State()), DelWrk(old(State()), dpt, wrk))
    {
      if dpt in depts && wrk in staff[dpt] {
        DelWrkFacts(State(), dpt, wrk);
      }
      o := Apply(DelWrk(State(), dpt, wrk));
    }

    /** Company::show: the company line, then each department's text in
        set order. */
    method Show() returns (s: string)
      requires Valid()
      ensures s == ShowText(name, State())
    {
      var body := DepartmentsRepr(State());
      s := CompanyMark + name + "\n" + body;
    }
  }

  /** Command::Execute on the company the command was given. */
  method Run(comp: Company, cmd: Command) returns (o: Outcome)
    requires comp.Valid()
    modifies comp
    ensures comp.Valid()
    ensures o == OutcomeOf(Execute(old(comp.State()), cmd)) && comp.State() == After(old(comp.State()), Execute(old(comp.State()), cmd))
  {
    match cmd
    case AddDeptCommand(name) =>
      o := comp.Newdp(name);
    case AddWorkerCommand(dpt, wrk) =>
      o := comp.Newwrk(dpt, wrk);
  }

  /** Command::unExecute on the company the command was given. */
  method Revert(comp: Company, cmd: Command) returns (o: Outcome)
    requires comp.Valid()
    modifies comp
    ensures comp.Valid()
    ensures o == OutcomeOf(UnExecute(old(comp.State()), cmd)) && comp.State() == After(old(comp.State()), UnExecute(old(comp.State()), cmd))
  {
    match cmd
    case AddDeptCommand(name) =>
      o := comp.Deldp(name);
    case AddWorkerCommand(dpt, wrk) =>
      o := comp.Delwrk(dpt, wrk);
  }

  /** Invoker: the company, the commands done (most recent last), the
      commands undone (most recent last) and the last command handled. */
  class Invoker {
    var done: seq<Command>
    var canceled: seq<Command>
    const com: Company
    var command: Option<Command>

    constructor ()
      ensures done == [] && canceled == [] && command == None
      ensures fresh(com) && com.name == "Roga i kopita" && com.State() == Chart([], map[]) && com.Valid()
    {
      done := [];
      canceled := [];
      com := new Company();
      command := None;
    }

    /** Invoker::addwrk: forgets the undone commands, then runs the new
        command and records it as done unless it threw. */
    method Addwrk(d: string, w: string) returns (o: Outcome)
      requires com.Valid()
      modifies this, com
      ensures com.Valid()
      ensures canceled == [] && command == Some(AddWorkerCommand(d, w))
      ensures o == OutcomeOf(Execute(old(com.State()), AddWorkerCommand(d, w)))
      ensures com.State() == After(old(com.State()), Execute(old(com.State()), AddWorkerCommand(d, w)))
      ensures done == old(done) + if o == Done then [AddWorkerCommand(d, w)] else []
    {
      canceled := [];
      var cmd := AddWorkerCommand(d, w);
      command := Some(cmd);
      o := Run(com, cmd);
      if o == Done {
        done := done + [cmd];
      }
    }

    /** Invoker::adddpt, the same for a new department. */
    method Adddpt(d: string) returns (o: Outcome)
      requires com.Valid()
      modifies this, com
      ensures com.Valid()
      ensures canceled == [] && command == Some(AddDeptCommand(d))
      ensures o == OutcomeOf(Execute(old(com.State()), AddDeptCommand(d)))
      ensures com.State() == After(old(com.State()), Execute(old(com.State()), AddDeptCommand(d)))
      ensures done == old(done) + if o == Done then [AddDeptCommand(d)] else []
    {
      canceled := [];
      var cmd := AddDeptCommand(d);
      command := Some(cmd);
      o := Run(com, cmd);
      if o == Done {
        done := done + [cmd];
      }
    }

    /** Invoker::Undo: with nothing done, says so and changes nothing;
        otherwise pops the last command done, reverts it and records it
        as undone unless reverting threw. */
    method Undo() returns (o: Outcome)
      requires com.Valid()
      modifies this, com
      ensures com.Valid()
      ensures old(done) == [] ==>
                o == Refused("There's nothing to undo") && done == [] && canceled == old(canceled) &&
                command == old(command) && com.State() == old(com.State())
      ensures old(done) != [] ==>
                var cmd := old(done)[|old(done)| - 1];
                var r := UnExecute(old(com.State()), cmd);
                command == Some(cmd) && done == old(done)[..|old(done)| - 1] &&
                o == OutcomeOf(r) && com.State() == After(old(com.State()), r) &&
                canceled == old(canceled) + if o == Done then [cmd] else []
    {
      if |done| == 0 {
        o := Refused("There's nothing to undo");
      } else {
        var cmd := done[|done| - 1];
        command := Some(cmd);
        done := done[..|done| - 1];
        o := Revert(com, cmd);
        if o == Done {
          canceled := canceled + [cmd];
        }
      }
    }

    /** Invoker::Redo, the mirror image of Undo. */
    method Redo() returns (o: Outcome)
      requires com.Valid()
      modifies this, com
      ensures com.Valid()
      ensures old(canceled) == [] ==>
                o == Refused("There's nothing to redo") && canceled == [] && done == old(done) &&
                command == old(command) && com.State() == old(com.State())
      ensures old(canceled) != [] ==>
                var cmd := old(canceled)[|old(canceled)| - 1];
                var r := Execute(old(com.State()), cmd);
                command == Some(cmd) && canceled == old(canceled)[..|old(canceled)| - 1] &&
                o == OutcomeOf(r) && com.State() == After(old(com.State()), r) &&
                done == old(done) + if o == Done then [cmd] else []
    {
      if |canceled| == 0 {
        o := Refused("There's nothing to redo");
      } else {
        var cmd := canceled[|canceled| - 1];
        command := Some(cmd);
        canceled := canceled[..|canceled| - 1];
        o := Run(com, cmd);
        if o == Done {
          done := done + [cmd];
        }
      }
    }

    /** Invoker::Show */
    method Show() returns (s: string)
      requires com.Valid()
      ensures s == ShowText(com.name, com.State())
    {
      s := com.Show();
    }
  }

  /** The split main applies to the argument of "addwrk", as a relation:
      the department is everything before the first ':', the worker
      everything from two characters after it (the character right after
      ':' is skipped, whatever it is). */
  predicate IsSplit(val: string, dpt: string, wrk: string) {
    |dpt| < |val| && val[|dpt|] == ':' && dpt == val[..|dpt|] && ':' !in dpt &&
    wrk == if |dpt| + 2 <= |val| then val[|dpt| + 2..] else ""
  }

  /** The two loops of main for "addwrk": characters are copied to dpt up
      to the first ':', the index skips two, and the rest is copied to
      wrk. Without a ':' the first loop reads past the string, so one must
      be there. */
  method SplitWorkerArg(val: string) returns (dpt: string, wrk: string)
    requires ':' in val
    ensures IsSplit(val, dpt, wrk)
  {
    dpt, wrk := "", "";
    var i := 0;
    while val[i] != ':'
      invariant 0 <= i <= |val| && ':' in val[i..]
      invariant dpt == val[..i] && ':' !in dpt
      decreases |val| - i
    {
      assert val[i..] == [val[i]] + val[i + 1..];
      dpt := dpt + [val[i]];
      i := i + 1;
    }
    i := i + 2;
    ghost var start := i;
    while i < |val|
      invariant start == |dpt| + 2 && start <= i
      invariant start <= |val| ==> i <= |val| && wrk == val[start..i]
      invariant start > |val| ==> wrk == ""
    {
      wrk := wrk + [val[i]];
      i := i + 1;
    }
  }

  /** There is only one first ':'. */
  lemma FirstColon(val: string, a: nat, b: nat)
    requires a < |val| && b < |val| && val[a] == ':' && val[b] == ':'
    requires ':' !in val[..a] && ':' !in val[..b]
    ensures a == b
  {
  }

  /** d, ':', any one character, then w is split into d and w, and into
      nothing else, as long as d has no ':'. */
  lemma SplitJoin(d: string, c: char, w: string)
    requires ':' !in d
    ensures IsSplit(d + [':', c] + w, d, w)
    ensures forall dpt, wrk :: IsSplit(d + [':', c] + w, dpt, wrk) ==> dpt == d && wrk == w
  {
    var val := d + [':', c] + w;
    assert val[..|d|] == d;
    assert val[|d| + 2..] == w;
    forall dpt, wrk | IsSplit(val, dpt, wrk)
      ensures dpt == d && wrk == w
    {
      FirstColon(val, |dpt|, |d|);
    }
  }

  /** std::cin >> val reads one token, with no whitespace in it, so the
      argument reaches the split as "d:w". Skipping two characters after
      the ':' then drops the worker's first letter. */
  lemma TokenLosesFirstLetter(d: string, w: string)
    requires ':' !in d && w != []
    ensures IsSplit(d + [':'] + w, d, w[1..])
    ensures forall dpt, wrk :: IsSplit(d + [':'] + w, dpt, wrk) ==> wrk == w[1..]
  {
    assert d + [':'] + w == d + [':', w[0]] + w[1..];
    SplitJoin(d, w[0], w[1..]);
  }

  /** The split as evidently intended for a token "d:w": the department
      before the first ':', the worker everything after it. */
  predicate IsColonSplit(val: string, dpt: string, wrk: string) {
    |dpt| < |val| && val[|dpt|] == ':' && dpt == val[..|dpt|] && ':' !in dpt &&
    wrk == val[|dpt| + 1..]
  }

  /** The two loops with the index advanced past the ':' only. */
  method SplitWorkerToken(val: string) returns (dpt: string, wrk: string)
    requires ':' in val
    ensures IsColonSplit(val, dpt, wrk)
  {
    dpt, wrk := "", "";
    var i := 0;
    while val[i] != ':'
      invariant 0 <= i <= |val| && ':' in val[i..]
      invariant dpt == val[..i] && ':' !in dpt
      decreases |val| - i
    {
      assert val[i..] == [val[i]] + val[i + 1..];
      dpt := dpt + [val[i]];
      i := i + 1;
    }
    i := i + 1;
    ghost var start := i;
    while i < |val|
      invariant start == |dpt| + 1 && start <= i <= |val|
      invariant wrk == val[start..i]
    {
      wrk := wrk + [val[i]];
      i := i + 1;
    }
  }

  /** The corrected split gives back exactly the department and the
      worker a token "d:w" was made of. */
  lemma ColonSplitJoin(d: string, w: string)
    requires ':' !in d
    ensures IsColonSplit(d + [':'] + w, d, w)
    ensures forall dpt, wrk :: IsColonSplit(d + [':'] + w, dpt, wrk) ==> dpt == d && wrk == w
  {
    var val := d + [':'] + w;
    assert val[..|d|] == d;
    assert val[|d| + 1..] == w;
    forall dpt, wrk | IsColonSplit(val, dpt, wrk)
      ensures dpt == d && wrk == w
    {
      FirstColon(val, |dpt|, |d|);
    }
  }
}
