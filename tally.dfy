/**
  The degree tally of `main_details` in full.py: for every department page,
  every professor and every degree found on the professor's profile, the
  nested dictionary `allschools[school]["Degrees"][dept][level]` counts the
  degree, and `all_degree_levels` collects its level.

  The model flattens the three nested loops into the sequence of degree
  events they visit, in order, and defines the tally as a left fold of one
  dictionary update per event; `TallyDegrees` is the loop nest itself.
*/
module DegreeTally {
  import opened Wrappers
  import opened Degrees

  /** `dtype_count`: the number of degrees of each level. */
  type Counts = map<string, nat>

  /**
    A value of `allschools`: the seed entry `{"Object": i}` of the home
    institution, which has no "Degrees" key, or `{"Degrees": byDept}`.
  */
  datatype SchoolEntry = HomeObject | Tallied(byDept: map<string, Counts>)

  /**
    What `filter_degrees` gives a professor: `["None"]`, or the degrees
    found, of which there is at least one.
  */
  datatype Listing = NoneFound | Found(degrees: FoundDegrees)

  type FoundDegrees = ds: seq<Degree> | ds != [] witness [Degree("", "")]

  /** A department page: its `name()` and, in visiting order, its professors' listings. */
  datatype Department = Department(name: string, profs: seq<Listing>)

  /** The two variables the tally updates: `allschools` and `all_degree_levels`. */
  datatype State = State(schools: map<string, SchoolEntry>, levels: set<string>)

  /** The exceptions the tally can raise. */
  datatype TallyError =
    | MissingDegrees          // KeyError: 'Degrees', on the home institution's entry
    | MissingDept(dept: string)  // KeyError: dept, a school first counted under another department

  /** One visit of the innermost loop: degree d of a professor of department dept. */
  datatype Event = Event(dept: string, degree: Degree)

  /** The name the seed entry is stored under. */
  const HOME := "Williams College"

  /** `allschools = {"Williams College": {"Object": i}}` and `all_degree_levels = set()`. */
  function Initial(): State {
    State(map[HOME := HomeObject], {})
  }

  /**
    One pass of the innermost loop body. A school seen for the first time
    gets `{dept: {level: 1}}`; a known school raises KeyError('Degrees') if
    it is the seed entry, increments a (dept, level) count it already holds,
    sets a new level of a known department to 1, and raises KeyError(dept)
    for a department it does not hold. On success the level joins the set.
  */
  function CountDegree(s: State, e: Event): (r: Result<State, TallyError>)
    ensures r.Failure? <==>
      e.degree.school in s.schools &&
      (s.schools[e.degree.school].HomeObject? || e.dept !in s.schools[e.degree.school].byDept)
    ensures r.Failure? ==>
      r.error == if s.schools[e.degree.school].HomeObject? then MissingDegrees else MissingDept(e.dept)
    ensures r.Success? ==>
      && r.value.levels == s.levels + {e.degree.level}
      && r.value.schools.Keys == s.schools.Keys + {e.degree.school}
      && r.value.schools[e.degree.school].Tallied?
      && (forall k | k in s.schools && k != e.degree.school :: r.value.schools[k] == s.schools[k])
  {
    var school, dept, level := e.degree.school, e.dept, e.degree.level;
    if school !in s.schools then
      Success(State(s.schools[school := Tallied(map[dept := map[level := 1]])], s.levels + {level}))
    else
      match s.schools[school]
      case HomeObject => Failure(MissingDegrees)
      case Tallied(byDept) =>
        if dept in byDept && level in byDept[dept] then
          var counts := byDept[dept][level := byDept[dept][level] + 1];
          Success(State(s.schools[school := Tallied(byDept[dept := counts])], s.levels + {level}))
        else if dept in byDept then
          var counts := byDept[dept][level := 1];
          Success(State(s.schools[school := Tallied(byDept[dept := counts])], s.levels + {level}))
        else
          Failure(MissingDept(dept))
  }

  /** The events of one professor: none for `["None"]`, else one per degree in list order. */
  function ProfEvents(dept: string, l: Listing): seq<Event> {
    match l
    case NoneFound => []
    case Found(ds) => seq(|ds|, k requires 0 <= k < |ds| => Event(dept, ds[k]))
  }

  /** The events of a department's professors, in visiting order. */
  function ProfsEvents(dept: string, ls: seq<Listing>): seq<Event> {
    if ls == [] then []
    else ProfsEvents(dept, ls[..|ls| - 1]) + ProfEvents(dept, ls[|ls| - 1])
  }

  /** The events of all departments, in visiting order. */
  function Events(depts: seq<Department>): seq<Event> {
    if depts == [] then []
    else Events(depts[..|depts| - 1]) + ProfsEvents(depts[|depts| - 1].name, depts[|depts| - 1].profs)
  }

  /** The tally after the given events, or the first exception raised. */
  function Tally(s: State, es: seq<Event>): Result<State, TallyError> {
    if es == [] then Success(s)
    else
      match Tally(s, es[..|es| - 1])
      case Failure(err) => Failure(err)
      case Success(t) => CountDegree(t, es[|es| - 1])
  }

  /** The outcome of the loop nest of `main_details`. */
  function TallyAll(depts: seq<Department>): Result<State, TallyError> {
    Tally(Initial(), Events(depts))
  }

  /** `allschools[school]["Degrees"][dept][level]`, or 0 where any of the keys is missing. */
  function CountOf(s: State, school: string, dept: string, level: string): nat {
    if school in s.schools && s.schools[school].Tallied? && dept in s.schools[school].byDept
       && level in s.schools[school].byDept[dept]
    then s.schools[school].byDept[dept][level]
    else 0
  }

  /** How many of the events are a degree of the given level from the school, listed by the department. */
  function Occurrences(es: seq<Event>, school: string, dept: string, level: string): nat {
    if es == [] then 0
    else
      Occurrences(es[..|es| - 1], school, dept, level) +
      if es[|es| - 1] == Event(dept, Degree(level, school)) then 1 else 0
  }

  /** A school seen for the first time gets `{dept: {level: 1}}`. */
  lemma FirstSeen(s: State, e: Event)
    requires e.degree.school !in s.schools
    ensures CountDegree(s, e).Success?
    ensures CountDegree(s, e).value.schools[e.degree.school] == Tallied(map[e.dept := map[e.degree.level := 1]])
  {
  }

  /**
    A repeated (school, dept, level) adds exactly one to its count; no other
    count of the school changes.
  */
  lemma RepeatedIncrements(s: State, e: Event, dept: string, level: string)
    requires e.degree.school in s.schools && s.schools[e.degree.school].Tallied?
    requires e.dept in s.schools[e.degree.school].byDept
    requires e.degree.level in s.schools[e.degree.school].byDept[e.dept]
    ensures CountDegree(s, e).Success?
    ensures CountOf(CountDegree(s, e).value, e.degree.school, e.dept, e.degree.level)
         == CountOf(s, e.degree.school, e.dept, e.degree.level) + 1
    ensures (dept, level) != (e.dept, e.degree.level) ==>
      CountOf(CountDegree(s, e).value, e.degree.school, dept, level) == CountOf(s, e.degree.school, dept, level)
  {
  }

  /** A level new to a known department of the school is set to 1; no other count of the school changes. */
  lemma NewLevelSetToOne(s: State, e: Event, dept: string, level: string)
    requires e.degree.school in s.schools && s.schools[e.degree.school].Tallied?
    requires e.dept in s.schools[e.degree.school].byDept
    requires e.degree.level !in s.schools[e.degree.school].byDept[e.dept]
    ensures CountDegree(s, e).Success?
    ensures CountOf(CountDegree(s, e).value, e.degree.school, e.dept, e.degree.level) == 1
    ensures (dept, level) != (e.dept, e.degree.level) ==>
      CountOf(CountDegree(s, e).value, e.degree.school, dept, level) == CountOf(s, e.degree.school, dept, level)
  {
  }

  /**
    Running the events in two stretches is running them all at once: the
    second stretch starts from the state the first one leaves, and an
    exception in the first stretch is the exception of the whole run.
  */
  lemma {:induction false} TallyAppend(s: State, a: seq<Event>, b: seq<Event>)
    ensures Tally(s, a + b) == match Tally(s, a) case Failure(err) => Failure(err) case Success(t) => Tally(t, b)
    decreases |b|
  {
    if b == [] {
      assert a + b == a;
    } else {
      var front := b[..|b| - 1];
      TallyAppend(s, a, front);
      assert (a + b)[..|a + b| - 1] == a + front;
      assert (a + b)[|a + b| - 1] == b[|b| - 1];
    }
  }

  /** The events of two runs of professors are those of each, one after the other. */
  lemma {:induction false} ProfsEventsAppend(dept: string, a: seq<Listing>, b: seq<Listing>)
    ensures ProfsEvents(dept, a + b) == ProfsEvents(dept, a) + ProfsEvents(dept, b)
    decreases |b|
  {
    if b == [] {
      assert a + b == a;
    } else {
      var front, last := b[..|b| - 1], b[|b| - 1];
      ProfsEventsAppend(dept, a, front);
      assert (a + b)[..|a + b| - 1] == a + front;
      assert (a + b)[|a + b| - 1] == last;
      assert ProfsEvents(dept, a + b) == ProfsEvents(dept, a + front) + ProfEvents(dept, last);
      assert ProfsEvents(dept, b) == ProfsEvents(dept, front) + ProfEvents(dept, last);
    }
  }

  /** The events of two runs of departments are those of each, one after the other. */
  lemma {:induction false} EventsAppend(a: seq<Department>, b: seq<Department>)
    ensures Events(a + b) == Events(a) + Events(b)
    decreases |b|
  {
    if b == [] {
      assert a + b == a;
    } else {
      var front := b[..|b| - 1];
      EventsAppend(a, front);
      assert (a + b)[..|a + b| - 1] == a + front;
      assert (a + b)[|a + b| - 1] == b[|b| - 1];
    }
  }

  /** The listings whose first entry is not "None". */
  function DropNoneFound(ls: seq<Listing>): (r: seq<Listing>)
    ensures forall k | 0 <= k < |r| :: r[k].Found?
  {
    if ls == [] then []
    else DropNoneFound(ls[..|ls| - 1]) + if ls[|ls| - 1].Found? then [ls[|ls| - 1]] else []
  }

  /** A professor whose listing is `["None"]` contributes nothing: dropping all of them keeps the events. */
  lemma {:induction false} NoneFoundChangesNothing(dept: string, ls: seq<Listing>)
    ensures ProfsEvents(dept, DropNoneFound(ls)) == ProfsEvents(dept, ls)
  {
    if ls != [] {
      var front, last := ls[..|ls| - 1], ls[|ls| - 1];
      NoneFoundChangesNothing(dept, front);
      assert ProfsEvents(dept, ls) == ProfsEvents(dept, front) + ProfEvents(dept, last);
      if last.Found? {
        assert DropNoneFound(ls) == DropNoneFound(front) + [last];
        ProfsEventsAppend(dept, DropNoneFound(front), [last]);
        assert [last][..0] == [];
        assert ProfsEvents(dept, [last]) == ProfEvents(dept, last);
      } else {
        assert DropNoneFound(ls) == DropNoneFound(front) + [];
        assert DropNoneFound(front) + [] == DropNoneFound(front);
      }
    }
  }

  /** Once the seed entry is in place, a successful run leaves it in place. */
  lemma {:induction false} HomeStaysSeed(s: State, es: seq<Event>)
    requires HOME in s.schools && s.schools[HOME].HomeObject?
    ensures Tally(s, es).Success? ==> HOME in Tally(s, es).value.schools && Tally(s, es).value.schools[HOME].HomeObject?
  {
    if es != [] {
      HomeStaysSeed(s, es[..|es| - 1]);
    }
  }

  /** Any degree from the home institution itself makes the tally raise KeyError('Degrees'). */
  lemma HomeDegreeRaises(depts: seq<Department>, k: int)
    requires 0 <= k < |Events(depts)| && Events(depts)[k].degree.school == HOME
    ensures TallyAll(depts).Failure?
  {
    var es := Events(depts);
    HomeStaysSeed(Initial(), es[..k]);
    TallyAppend(Initial(), es[..k], [es[k]]);
    TallyAppend(Initial(), es[..k] + [es[k]], es[k + 1..]);
    assert es[..k] + [es[k]] + es[k + 1..] == es;
  }

  /**
    After a successful run from the initial state, every count equals the
    number of matching events, and the level set is the set of the events'
    levels.
  */
  lemma {:induction false} TallyCounts(es: seq<Event>)
    requires Tally(Initial(), es).Success?
    ensures forall school, dept, level ::
      CountOf(Tally(Initial(), es).value, school, dept, level) == Occurrences(es, school, dept, level)
    ensures Tally(Initial(), es).value.levels == set k | 0 <= k < |es| :: es[k].degree.level
  {
    if es != [] {
      var front, e := es[..|es| - 1], es[|es| - 1];
      TallyCounts(front);
      var t := Tally(Initial(), front).value;
      var u := CountDegree(t, e).value;
      forall school, dept, level
        ensures CountOf(u, school, dept, level) == Occurrences(es, school, dept, level)
      {
        if school == e.degree.school {
          CountStep(t, e, dept, level);
        }
      }
      assert u.levels == set k | 0 <= k < |es| :: es[k].degree.level by {
        forall x | x in u.levels ensures exists k | 0 <= k < |es| :: es[k].degree.level == x {
          if x != e.degree.level {
            var k :| 0 <= k < |front| && front[k].degree.level == x;
            assert es[k] == front[k];
          }
        }
      }
    }
  }

  /** How one event changes the counts of its own school. */
  lemma CountStep(t: State, e: Event, dept: string, level: string)
    requires CountDegree(t, e).Success?
    ensures CountOf(CountDegree(t, e).value, e.degree.school, dept, level)
         == CountOf(t, e.degree.school, dept, level) + if (dept, level) == (e.dept, e.degree.level) then 1 else 0
  {
    if e.degree.school in t.schools {
      if e.degree.level in t.schools[e.degree.school].byDept[e.dept] {
        RepeatedIncrements(t, e, dept, level);
      } else {
        NewLevelSetToOne(t, e, dept, level);
      }
    }
  }

  /** The events of a single professor. */
  lemma ProfsSingle(dept: string, l: Listing)
    ensures ProfsEvents(dept, [l]) == ProfEvents(dept, l)
  {
    assert [l][..0] == [];
  }

  /** The events of a single department. */
  lemma EventsSingle(d: Department)
    ensures Events([d]) == ProfsEvents(d.name, d.profs)
  {
    assert [d][..0] == [];
  }

  /** A run of professors splits around professor j. */
  lemma ProfsSplit(dept: string, ls: seq<Listing>, j: int)
    requires 0 <= j < |ls|
    ensures ProfsEvents(dept, ls) == ProfsEvents(dept, ls[..j]) + ProfEvents(dept, ls[j]) + ProfsEvents(dept, ls[j + 1..])
  {
    var a, b, c := ls[..j], [ls[j]], ls[j + 1..];
    assert a + ls[j..] == ls;
    assert b + c == ls[j..];
    ProfsEventsAppend(dept, a, ls[j..]);
    ProfsEventsAppend(dept, b, c);
    ProfsSingle(dept, ls[j]);
  }

  /** A run of departments splits around department i. */
  lemma EventsSplit(depts: seq<Department>, i: int)
    requires 0 <= i < |depts|
    ensures Events(depts) == Events(depts[..i]) + ProfsEvents(depts[i].name, depts[i].profs) + Events(depts[i + 1..])
  {
    var a, b, c := depts[..i], [depts[i]], depts[i + 1..];
    assert a + depts[i..] == depts;
    assert b + c == depts[i..];
    EventsAppend(a, depts[i..]);
    EventsAppend(b, c);
    EventsSingle(depts[i]);
  }

  /** Regrouping a concatenation of event runs, kept apart so the callers' contexts stay small. */
  lemma AppendAssoc(a: seq<Event>, b: seq<Event>, c: seq<Event>)
    ensures a + b + c == a + (b + c)
  {
  }

  /** Once a run has raised, the events after it do not matter. */
  lemma RaisedSticks(s: State, a: seq<Event>, b: seq<Event>)
    requires Tally(s, a).Failure?
    ensures Tally(s, a + b) == Tally(s, a)
  {
    TallyAppend(s, a, b);
  }

  /**
    An exception raised while counting professor j of department i is the
    outcome of the whole tally.
  */
  lemma RaisedAtProfessor(depts: seq<Department>, i: int, j: int, err: TallyError)
    requires 0 <= i < |depts| && 0 <= j < |depts[i].profs|
    requires Tally(Initial(), Events(depts[..i]) + ProfsEvents(depts[i].name, depts[i].profs[..j])
                              + ProfEvents(depts[i].name, depts[i].profs[j])) == Failure(err)
    ensures TallyAll(depts) == Failure(err)
  {
    var name, profs := depts[i].name, depts[i].profs;
    var pe := ProfEvents(name, profs[j]);
    var before, others := Events(depts[..i]), ProfsEvents(name, profs[..j]);
    var later := ProfsEvents(name, profs[j + 1..]);
    RaisedSticks(Initial(), before + others + pe, later);
    ProfsSplit(name, profs, j);
    AppendAssoc(before, others, pe);
    AppendAssoc(before, others + pe, later);
    assert before + others + pe + later == before + ProfsEvents(name, profs);
    RaisedSticks(Initial(), before + ProfsEvents(name, profs), Events(depts[i + 1..]));
    EventsSplit(depts, i);
  }

  /**
    One pass of the innermost loop body of `main_details`, on the current
    `allschools` and `all_degree_levels`: the new values, or the exception.
  */
  method CountOne(allschools: map<string, SchoolEntry>, levels: set<string>, dept: string, d: Degree)
    returns (r: Result<State, TallyError>)
    ensures r == CountDegree(State(allschools, levels), Event(dept, d))
  {
    var schools := allschools;
    if d.school !in schools {
      schools := schools[d.school := Tallied(map[dept := map[d.level := 1]])];
    } else if schools[d.school].HomeObject? {
      return Failure(MissingDegrees);
    } else if dept in schools[d.school].byDept && d.level in schools[d.school].byDept[dept] {
      var byDept := schools[d.school].byDept;
      schools := schools[d.school := Tallied(byDept[dept := byDept[dept][d.level := byDept[dept][d.level] + 1]])];
    } else if dept in schools[d.school].byDept {
      var byDept := schools[d.school].byDept;
      schools := schools[d.school := Tallied(byDept[dept := byDept[dept][d.level := 1]])];
    } else {
      return Failure(MissingDept(dept));
    }
    return Success(State(schools, levels + {d.level}));
  }

  /**
    The innermost loop of `main_details`: the degrees of one professor, in
    list order, stopping at the first exception.
  */
  method TallyProfessor(allschools: map<string, SchoolEntry>, levels: set<string>, dept: string, ds: FoundDegrees)
    returns (r: Result<State, TallyError>)
    ensures r == Tally(State(allschools, levels), ProfEvents(dept, Found(ds)))
  {
    ghost var s0 := State(allschools, levels);
    ghost var pe := ProfEvents(dept, Found(ds));
    var schools, seen := allschools, levels;
    for k := 0 to |ds|
      invariant Tally(s0, pe[..k]) == Success(State(schools, seen))
    {
      r := CountOne(schools, seen, dept, ds[k]);
      assert pe[..k + 1][..k] == pe[..k];
      assert Tally(s0, pe[..k + 1]) == r;
      if r.Failure? {
        RaisedSticks(s0, pe[..k + 1], pe[k + 1..]);
        assert pe[..k + 1] + pe[k + 1..] == pe;
        return;
      }
      schools, seen := r.value.schools, r.value.levels;
    }
    assert pe[..|ds|] == pe;
    return Success(State(schools, seen));
  }

  /**
    The loop nest of `main_details` over the department pages, their
    professors and each professor's degrees, updating `allschools` and
    `all_degree_levels` and stopping at the first exception.
  */
  method TallyDegrees(depts: seq<Department>) returns (r: Result<State, TallyError>)
    ensures r == TallyAll(depts)
  {
    var allschools := map[HOME := HomeObject];
    var levels: set<string> := {};
    for i := 0 to |depts|
      invariant Tally(Initial(), Events(depts[..i])) == Success(State(allschools, levels))
    {
      var dept := depts[i];
      ghost var before := Events(depts[..i]);
      assert dept.profs[..0] == [];
      assert before + ProfsEvents(dept.name, dept.profs[..0]) == before;
      for j := 0 to |dept.profs|
        invariant Tally(Initial(), before + ProfsEvents(dept.name, dept.profs[..j])) == Success(State(allschools, levels))
      {
        var p := dept.profs[j];
        ghost var done := before + ProfsEvents(dept.name, dept.profs[..j]);
        TallyAppend(Initial(), done, ProfEvents(dept.name, p));
        if p.Found? {
          r := TallyProfessor(allschools, levels, dept.name, p.degrees);
          if r.Failure? {
            RaisedAtProfessor(depts, i, j, r.error);
            return;
          }
          allschools, levels := r.value.schools, r.value.levels;
        }
        assert dept.profs[..j + 1][..j] == dept.profs[..j];
        AppendAssoc(before, ProfsEvents(dept.name, dept.profs[..j]), ProfEvents(dept.name, p));
      }
      assert dept.profs[..|dept.profs|] == dept.profs;
      assert depts[..i + 1][..i] == depts[..i];
    }
    assert depts[..|depts|] == depts;
    return Success(State(allschools, levels));
  }
}
