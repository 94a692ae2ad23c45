/**
 * `check_all` of the stand-alone script stu_homework.py: the older poller.
 * It only tracks `pushed_at` (no commit counts), saves the state file once
 * at the end of the pass when anything changed, and - because its
 * `fetch_repo_info` does not catch exceptions - abandons the whole pass,
 * saving nothing, when a request raises.
 */
module BatchedCheck {
  import opened Wrappers
  import opened Json
  import opened Reconcile

  /** What `fetch_repo_info` did for one student: returned (the decoded
      answer, or `None`), or raised. */
  datatype RootProbe = Answered(info: Option<map<string, Json>>) | Raised

  /** One iteration: `None` when it raises, else the new state and whether it changed anything. */
  function RootVisit(state: State, s: Json, probe: RootProbe): (r: Option<(State, bool)>)
  {
    if !s.JObj? then None
    else if !Visited(s.fields) then Some((state, false))
    else if !Parsable(s.fields) || probe.Raised? then None
    else if !Informative(Probe(probe.info, -1)) then Some((state, false))
    else match KeyOf(Name(s.fields))
      case None => None
      case Some(name) =>
        var (e, changed) := UpdatePushed(EntryOf(state, name), Get(probe.info.value, "pushed_at", JNull));
        if changed then Some((state[name := e], true)) else Some((state, false))
  }

  /** The first `n` iterations: `None` when the pass raised, else the state and the `changed` flag. */
  function RootPass(students: seq<Json>, loaded: State, probes: seq<RootProbe>, n: nat): (r: Option<(State, bool)>)
    requires n <= |students| == |probes|
  {
    if n == 0 then Some((loaded, false))
    else match RootPass(students, loaded, probes, n - 1)
      case None => None
      case Some((st, changed)) =>
        match RootVisit(st, students[n - 1], probes[n - 1])
        case None => None
        case Some((st2, c)) => Some((st2, changed || c))
  }

  /** Once the pass has raised, it stays abandoned. */
  lemma {:induction false} RaisedAborts(students: seq<Json>, loaded: State, probes: seq<RootProbe>, k: nat, n: nat)
    requires k <= n <= |students| == |probes|
    requires RootPass(students, loaded, probes, k).None?
    ensures RootPass(students, loaded, probes, n).None?
    decreases n - k
  {
    if k < n {
      RaisedAborts(students, loaded, probes, k + 1, n);
    }
  }

  /** A visit raises exactly on a non-dict item, a non-string repository, a request
      that raises, or an unhashable name that the loop reaches. */
  lemma RootVisitRaisesIff(state: State, s: Json, probe: RootProbe)
    ensures RootVisit(state, s, probe).None? <==>
      if probe.Answered? then Fails(s, Probe(probe.info, -1)) else !s.JObj? || Visited(s.fields)
  {
  }

  /** `check_all()` of the script: the returned state (`None` when it raised) and the saves made. */
  method CheckAllBatched(students: seq<Json>, loaded: State, probes: seq<RootProbe>) returns (outcome: Option<State>, ghost saves: seq<State>)
    requires |students| == |probes|
    ensures var r := RootPass(students, loaded, probes, |students|);
      && (r.None? ==> outcome.None? && saves == [])
      && (r.Some? ==> outcome == Some(r.value.0) && saves == (if r.value.1 then [r.value.0] else []))
  {
    var state := loaded;
    var changed := false;
    saves := [];
    for i := 0 to |students|
      invariant RootPass(students, loaded, probes, i) == Some((state, changed))
    {
      var s := students[i];
      if !s.JObj? {
        RaisedAborts(students, loaded, probes, i + 1, |students|);
        return None, [];
      }
      if !Visited(s.fields) {
        continue;
      }
      if !Parsable(s.fields) || probes[i].Raised? {
        RaisedAborts(students, loaded, probes, i + 1, |students|);
        return None, [];
      }
      var info := probes[i].info;
      if info.None? || info.value == map[] {
        continue;
      }
      var pushed := Get(info.value, "pushed_at", JNull);
      var key := KeyOf(Name(s.fields));
      if key.None? {
        RaisedAborts(students, loaded, probes, i + 1, |students|);
        return None, [];
      }
      var name := key.value;
      var prev := EntryOf(state, name);
      if Truthy(pushed) && !(LastKnownKey in prev && prev[LastKnownKey] == pushed) {
        prev := prev[LastKnownKey := pushed];
        if LastViewedKey !in prev {
          prev := prev[LastViewedKey := JNull];
        }
        state := state[name := prev];
        changed := true;
      }
    }
    if changed {
      saves := [state];
    }
    outcome := Some(state);
  }

  /** The script only writes push times: every entry keeps its keys other than
      `last_known_pushed_at` and `last_viewed_at`, which it adds only as null, keeps
      its `last_viewed_at`, and no entry disappears. */
  lemma {:induction false} RootPassTouchesOnlyPushTimes(students: seq<Json>, loaded: State, probes: seq<RootProbe>, n: nat, k: Key)
    requires n <= |students| == |probes|
    requires RootPass(students, loaded, probes, n).Some?
    ensures var e, e0 := EntryOf(RootPass(students, loaded, probes, n).value.0, k), EntryOf(loaded, k);
      && (forall f :: f != LastKnownKey && f != LastViewedKey ==> (f in e <==> f in e0) && (f in e0 ==> e[f] == e0[f]))
      && (LastViewedKey in e0 ==> LastViewedKey in e && e[LastViewedKey] == e0[LastViewedKey])
      && (LastViewedKey in e && LastViewedKey !in e0 ==> e[LastViewedKey] == JNull)
      && (k in loaded ==> k in RootPass(students, loaded, probes, n).value.0)
  {
    if n > 0 {
      RootPassTouchesOnlyPushTimes(students, loaded, probes, n - 1, k);
    }
  }

  /** A pass that never set `changed` leaves the state as loaded (no save is then needed). */
  lemma {:induction false} RootPassUnchangedKeepsState(students: seq<Json>, loaded: State, probes: seq<RootProbe>, n: nat)
    requires n <= |students| == |probes|
    requires RootPass(students, loaded, probes, n).Some?
    ensures var (st, changed) := RootPass(students, loaded, probes, n).value;
      !changed ==> st == loaded
  {
    if n > 0 {
      RootPassUnchangedKeepsState(students, loaded, probes, n - 1);
    }
  }

  /** The newer poller, fed the same repository answers and no commit counts (-1 each time),
      raises exactly when the script does and otherwise ends in the same state; it only
      saves more often. */
  lemma {:induction false} AgreesWithNewerPoller(students: seq<Json>, loaded: State, probes: seq<RootProbe>, n: nat)
    requires n <= |students| == |probes|
    requires forall i :: 0 <= i < |probes| ==> probes[i].Answered?
    ensures var newer := seq(|probes|, i requires 0 <= i < |probes| => Probe(probes[i].info, -1));
      var r := Pass(students, loaded, newer, n);
      && (RootPass(students, loaded, probes, n).None? <==> r.raised)
      && (RootPass(students, loaded, probes, n).Some? ==> RootPass(students, loaded, probes, n).value.0 == r.state)
  {
    if n > 0 {
      AgreesWithNewerPoller(students, loaded, probes, n - 1);
    }
  }
}
