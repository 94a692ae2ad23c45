/**
 * `check_all` of src/xueyuanzuoye/stu_homework.py: one pass of the
 * background poller over the roster. For every student with a name and a
 * repository it asks GitHub for the repository (its `pushed_at`) and for the
 * commit count, updates that student's entry of the state file, and saves
 * the state file right after each student whose entry changed.
 *
 * The roster items are the JSON values `load_students` returns, and the keys
 * of the state are Python dict keys: a record's `name` is used as it is, so a
 * number names the entry of that number and a list or object name raises.
 * A pass that raises stops at that student; the saves made before it stay.
 *
 * The two network answers per student are inputs (`Probe`); the state file
 * contents before the pass are `loaded`; each `save_state` call is recorded
 * in the ghost log `saves`.
 */
module Reconcile {
  import opened Wrappers
  import opened Json
  import opened CommitCount

  /** A state-file entry: a JSON object. */
  type Entry = map<string, Json>

  /** A hashable Python value used as a dict key. Numbers are keys by value, so
      `True`, `1` and `1.0` are the same key; a string is never equal to a number. */
  datatype Key = StrKey(s: string) | NumKey(x: real) | NoneKey

  /** The state: dict key to entry. */
  type State = map<Key, Entry>

  const LastKnownKey := "last_known_pushed_at"
  const LastViewedKey := "last_viewed_at"
  const CountKey := "commits_count"

  /** The dict key a JSON value stands for; `None` when hashing it raises TypeError
      (a list or a dict). */
  function KeyOf(v: Json): Option<Key> {
    match v
    case JNull => Some(NoneKey)
    case JBool(b) => Some(NumKey(if b then 1.0 else 0.0))
    case JInt(i) => Some(NumKey(i as real))
    case JNum(x) => Some(NumKey(x))
    case JStr(s) => Some(StrKey(s))
    case _ => None
  }

  /** Two JSON values name the same key exactly as Python compares them: a number
      names the key of an int `n` exactly when it equals `n`, strings only their own
      key, and lists and objects no key at all. */
  lemma KeyOfIsPythonEquality(v: Json, n: int, s: string)
    ensures KeyOf(v) == Some(NumKey(n as real)) <==> PyEqInt(v, n)
    ensures KeyOf(v) == Some(StrKey(s)) <==> v == JStr(s)
    ensures KeyOf(v).None? <==> v.JArr? || v.JObj?
  {
  }

  /** What the network said about one student's repository: the decoded
      `fetch_repo_info` answer (`None` when it returned None) and the result
      of `fetch_commits_count`. */
  datatype Probe = Probe(info: Option<map<string, Json>>, commits: Count)

  /** `s.get("name")`. */
  function Name(s: Record): Json {
    Get(s, "name", JNull)
  }

  /** The record is visited: truthy name and repository (`if not name or not repo: continue`). */
  predicate Visited(s: Record) {
    Truthy(Name(s)) && Truthy(Get(s, "repo", JNull))
  }

  /** The repository can be handed to `urlparse`, which raises on anything but a string. */
  predicate Parsable(s: Record) {
    Get(s, "repo", JNull).JStr?
  }

  /** The `pushed_at` of the repository answer (null when there is none). */
  function PushedOf(p: Probe): Json {
    if p.info.Some? then Get(p.info.value, "pushed_at", JNull) else JNull
  }

  /** The repository answer is used (`if not info: continue`). */
  predicate Informative(p: Probe) {
    p.info.Some? && p.info.value != map[]
  }

  /** The student's visit raises: `s.get` on a non-dict item, `urlparse` of a
      non-string repository, or `state.get(name)` with an unhashable name. */
  predicate Fails(s: Json, p: Probe) {
    || !s.JObj?
    || (Visited(s.fields) && !Parsable(s.fields))
    || (Visited(s.fields) && Informative(p) && KeyOf(Name(s.fields)).None?)
  }

  /** The student's entry is looked at and maybe updated. */
  predicate Updates(s: Json, p: Probe) {
    s.JObj? && Visited(s.fields) && Parsable(s.fields) && Informative(p) && KeyOf(Name(s.fields)).Some?
  }

  /** The state key of a record whose visit reaches `state.get(name, {})`. */
  function KeyOfRecord(s: Json, p: Probe): Key
    requires Updates(s, p)
  {
    KeyOf(Name(s.fields)).value
  }

  /** `state.get(key, {})`. */
  function EntryOf(state: State, key: Key): Entry {
    if key in state then state[key] else map[]
  }

  /** `prev.get(key)`, with `None` as JSON null. */
  function Field(e: Entry, key: string): Json {
    Get(e, key, JNull)
  }

  /** The push-time rule: a truthy `pushed_at` different from the stored one is stored,
      and `last_viewed_at` is created as null when missing. */
  function UpdatePushed(prev: Entry, pushed: Json): (r: (Entry, bool))
  {
    if Truthy(pushed) && !(LastKnownKey in prev && prev[LastKnownKey] == pushed) then
      var e := prev[LastKnownKey := pushed];
      (if LastViewedKey in e then e else e[LastViewedKey := JNull], true)
    else (prev, false)
  }

  /** The commit-count rule: a count >= 0 is stored when nothing (or null) is stored
      or the stored number differs from it. */
  function UpdateCount(prev: Entry, commits: Count): (r: (Entry, bool))
  {
    if commits >= 0 && (Field(prev, CountKey) == JNull || !PyEqInt(Field(prev, CountKey), commits)) then
      (prev[CountKey := JInt(commits)], true)
    else (prev, false)
  }

  /** One iteration of the loop: `None` when it raises, else the new state and whether
      `save_state` is called. */
  function Visit(state: State, s: Json, p: Probe): (r: Option<(State, bool)>)
  {
    if !s.JObj? then None
    else if !Visited(s.fields) then Some((state, false))
    else if !Parsable(s.fields) then None
    else if !Informative(p) then Some((state, false))
    else match KeyOf(Name(s.fields))
      case None => None
      case Some(name) =>
        var prev := EntryOf(state, name);
        var (e1, c1) := UpdatePushed(prev, PushedOf(p));
        var (e2, c2) := UpdateCount(e1, p.commits);
        if c1 || c2 then Some((state[name := e2], true)) else Some((state, false))
  }

  /** The state so far, the states saved so far, and whether the pass has raised. */
  datatype Run = Run(state: State, saves: seq<State>, raised: bool)

  /** The pass over the first `n` students. */
  function Pass(students: seq<Json>, loaded: State, probes: seq<Probe>, n: nat): (r: Run)
    requires n <= |students| == |probes|
  {
    if n == 0 then Run(loaded, [], false)
    else
      var r := Pass(students, loaded, probes, n - 1);
      if r.raised then r
      else match Visit(r.state, students[n - 1], probes[n - 1])
        case None => Run(r.state, r.saves, true)
        case Some((st2, changed)) => if changed then Run(st2, r.saves + [st2], false) else r
  }

  /** Once the pass has raised, later students change nothing. */
  lemma {:induction false} RaisedStays(students: seq<Json>, loaded: State, probes: seq<Probe>, k: nat, n: nat)
    requires k <= n <= |students| == |probes|
    requires Pass(students, loaded, probes, k).raised
    ensures Pass(students, loaded, probes, n) == Pass(students, loaded, probes, k)
    decreases n - k
  {
    if k < n {
      RaisedStays(students, loaded, probes, k + 1, n);
    }
  }

  /** `check_all()`: the loop, saving after each student whose entry changed. It returns
      the state (`None` when it raised) and the saves it made. */
  method CheckAll(students: seq<Json>, loaded: State, probes: seq<Probe>) returns (outcome: Option<State>, ghost saves: seq<State>)
    requires |students| == |probes|
    ensures var r := Pass(students, loaded, probes, |students|);
      saves == r.saves && outcome == (if r.raised then None else Some(r.state))
  {
    var state := loaded;
    saves := [];
    var changed := false;
    for i := 0 to |students|
      invariant Pass(students, loaded, probes, i) == Run(state, saves, false)
      invariant !changed
    {
      var s := students[i];
      if !s.JObj? {
        RaisedStays(students, loaded, probes, i + 1, |students|);
        return None, saves;
      }
      if !Visited(s.fields) {
        continue;
      }
      if !Parsable(s.fields) {
        RaisedStays(students, loaded, probes, i + 1, |students|);
        return None, saves;
      }
      var info := probes[i].info;
      if !Informative(probes[i]) {
        continue;
      }
      var pushed := Get(info.value, "pushed_at", JNull);
      var key := KeyOf(Name(s.fields));
      if key.None? {
        RaisedStays(students, loaded, probes, i + 1, |students|);
        return None, saves;
      }
      var name := key.value;
      var prev := EntryOf(state, name);
      if Truthy(pushed) && !(LastKnownKey in prev && prev[LastKnownKey] == pushed) {
        prev := prev[LastKnownKey := pushed];
        if LastViewedKey !in prev {
          prev := prev[LastViewedKey := JNull];
        }
        changed := true;
      }
      var commits := probes[i].commits;
      if commits >= 0 {
        var current := Field(prev, CountKey);
        if current == JNull || !PyEqInt(current, commits) {
          prev := prev[CountKey := JInt(commits)];
          changed := true;
        }
      }
      if changed {
        state := state[name := prev];
        saves := saves + [state];
        changed := false;
      }
    }
    outcome := Some(state);
  }

  /** A visit raises exactly on a non-dict item, a non-string repository or an
      unhashable name that the loop reaches. */
  lemma VisitRaisesIff(state: State, s: Json, p: Probe)
    ensures Visit(state, s, p).None? <==> Fails(s, p)
  {
  }

  /** A pass raises exactly when one of its students fails. */
  lemma {:induction false} PassRaisesIff(students: seq<Json>, loaded: State, probes: seq<Probe>, n: nat)
    requires n <= |students| == |probes|
    ensures Pass(students, loaded, probes, n).raised <==> exists i :: 0 <= i < n && Fails(students[i], probes[i])
  {
    if n > 0 {
      PassRaisesIff(students, loaded, probes, n - 1);
      VisitRaisesIff(Pass(students, loaded, probes, n - 1).state, students[n - 1], probes[n - 1]);
    }
  }

  /** A visit calls `save_state` exactly when it changes the state. */
  lemma VisitSavesIffChanged(state: State, s: Json, p: Probe)
    requires Visit(state, s, p).Some?
    ensures Visit(state, s, p).value.1 <==> Visit(state, s, p).value.0 != state
  {
    var (st2, changed) := Visit(state, s, p).value;
    if changed {
      var name := KeyOfRecord(s, p);
      var prev := EntryOf(state, name);
      var (e1, c1) := UpdatePushed(prev, PushedOf(p));
      var (e2, c2) := UpdateCount(e1, p.commits);
      if c2 {
        assert e2[CountKey] == JInt(p.commits);
        assert Field(e1, CountKey) == JNull || !PyEqInt(Field(e1, CountKey), p.commits);
        assert e2 != e1;
        if c1 {
          assert LastKnownKey in e1 && e1[LastKnownKey] == e2[LastKnownKey];
        } else {
          assert e1 == prev;
        }
      }
      assert e2 != prev || name !in state;
      assert st2[name] == e2;
    }
  }

  /** Field-level effect of a visit on the visited key's entry; other keys are untouched. */
  lemma VisitEffect(state: State, s: Json, p: Probe)
    requires Updates(s, p)
    ensures Visit(state, s, p).Some?
    ensures var name := KeyOfRecord(s, p);
      var pushed := PushedOf(p);
      var st2 := Visit(state, s, p).value.0;
      var prev := EntryOf(state, name);
      var e := EntryOf(st2, name);
      && (forall k :: k in state && k != name ==> k in st2 && st2[k] == state[k])
      && (forall k :: k in st2 ==> k in state || k == name)
      && (Truthy(pushed) ==> Field(e, LastKnownKey) == pushed)
      && (!Truthy(pushed) ==> Field(e, LastKnownKey) == Field(prev, LastKnownKey))
      && (LastViewedKey in prev ==> LastViewedKey in e && e[LastViewedKey] == prev[LastViewedKey])
      && (Truthy(pushed) && Field(prev, LastKnownKey) != pushed && LastViewedKey !in prev ==>
            LastViewedKey in e && e[LastViewedKey] == JNull)
      && (!(Truthy(pushed) && Field(prev, LastKnownKey) != pushed) && LastViewedKey !in prev ==>
            LastViewedKey !in e)
      && (p.commits >= 0 ==> CountKey in e && PyEqInt(e[CountKey], p.commits))
      && (p.commits < 0 ==> Field(e, CountKey) == Field(prev, CountKey))
      && (forall f :: f != LastKnownKey && f != LastViewedKey && f != CountKey ==>
            (f in e <==> f in prev) && (f in prev ==> e[f] == prev[f]))
  {
  }

  /** Unvisited records and records whose repository answer is empty leave the state alone. */
  lemma SkippedLeavesState(state: State, s: Json, p: Probe)
    requires s.JObj?
    requires !Visited(s.fields) || (Parsable(s.fields) && !Informative(p))
    ensures Visit(state, s, p) == Some((state, false))
  {
  }

  /** The state file ends up equal to the state the pass reached: nothing is saved when
      nothing changed, and otherwise the last save holds that state. */
  lemma {:induction false} LastSaveIsFinal(students: seq<Json>, loaded: State, probes: seq<Probe>, n: nat)
    requires n <= |students| == |probes|
    ensures var r := Pass(students, loaded, probes, n);
      (r.saves == [] ==> r.state == loaded) && (r.saves != [] ==> r.saves[|r.saves| - 1] == r.state)
      && |r.saves| <= n
  {
    if n > 0 {
      LastSaveIsFinal(students, loaded, probes, n - 1);
    }
  }

  /** The name of a visited dict record names key `k`. */
  predicate NamesKey(s: Json, k: Key) {
    s.JObj? && Visited(s.fields) && KeyOf(Name(s.fields)) == Some(k)
  }

  /** A state key that is not the name of a visited record keeps its entry. */
  lemma {:induction false} PassKeepsOtherEntries(students: seq<Json>, loaded: State, probes: seq<Probe>, n: nat, k: Key)
    requires n <= |students| == |probes|
    requires forall i :: 0 <= i < n ==> !NamesKey(students[i], k)
    ensures var st := Pass(students, loaded, probes, n).state;
      (k in loaded <==> k in st) && (k in loaded ==> st[k] == loaded[k])
  {
    if n > 0 {
      PassKeepsOtherEntries(students, loaded, probes, n - 1, k);
      var r := Pass(students, loaded, probes, n - 1);
      if !r.raised && Updates(students[n - 1], probes[n - 1]) {
        VisitEffect(r.state, students[n - 1], probes[n - 1]);
      }
    }
  }

  /** Commit counts in the state are never the sentinel: if every stored count is a
      non-negative integer before the pass, so is every stored count after it. */
  predicate CountsKnown(state: State) {
    forall k :: k in state && CountKey in state[k] ==> state[k][CountKey].JInt? && state[k][CountKey].i >= 0
  }

  lemma {:induction false} PassKeepsCountsKnown(students: seq<Json>, loaded: State, probes: seq<Probe>, n: nat)
    requires n <= |students| == |probes|
    requires CountsKnown(loaded)
    ensures CountsKnown(Pass(students, loaded, probes, n).state)
  {
    if n > 0 {
      PassKeepsCountsKnown(students, loaded, probes, n - 1);
      var r := Pass(students, loaded, probes, n - 1);
      var s, p := students[n - 1], probes[n - 1];
      if !r.raised && Updates(s, p) {
        var prev := EntryOf(r.state, KeyOfRecord(s, p));
        var (e1, c1) := UpdatePushed(prev, PushedOf(p));
        assert CountKey in e1 ==> CountKey in prev && e1[CountKey] == prev[CountKey];
      }
    }
  }

  /** The entry already reflects the probe: a visit finds nothing to update. */
  predicate Settled(e: Entry, p: Probe) {
    var pushed := PushedOf(p);
    && (Truthy(pushed) ==> LastKnownKey in e && e[LastKnownKey] == pushed)
    && (p.commits >= 0 ==> CountKey in e && e[CountKey] != JNull && PyEqInt(e[CountKey], p.commits))
  }

  /** The visited student's entry is settled after its visit. */
  lemma VisitSettles(state: State, s: Json, p: Probe)
    requires Updates(s, p)
    ensures Visit(state, s, p).Some?
    ensures Settled(EntryOf(Visit(state, s, p).value.0, KeyOfRecord(s, p)), p)
  {
    var prev := EntryOf(state, KeyOfRecord(s, p));
    var (e1, c1) := UpdatePushed(prev, PushedOf(p));
    var (e2, c2) := UpdateCount(e1, p.commits);
  }

  /** A visit of a settled entry changes nothing. */
  lemma VisitOfSettled(state: State, s: Json, p: Probe)
    requires Updates(s, p)
    requires Settled(EntryOf(state, KeyOfRecord(s, p)), p)
    ensures Visit(state, s, p) == Some((state, false))
  {
  }

  /** A visited dict record with a hashable name. */
  predicate Named(s: Json) {
    s.JObj? && Visited(s.fields) && KeyOf(Name(s.fields)).Some?
  }

  /** No two visited dict records name the same key. */
  predicate DistinctVisitedNames(students: seq<Json>) {
    forall i, j :: 0 <= i < j < |students| && Named(students[i]) && Named(students[j]) ==>
      KeyOf(Name(students[i].fields)) != KeyOf(Name(students[j].fields))
  }

  /** After a pass over the first `n` students that did not raise, each of them whose
      entry was looked at is settled. */
  lemma {:induction false} PassSettles(students: seq<Json>, loaded: State, probes: seq<Probe>, n: nat)
    requires n <= |students| == |probes|
    requires DistinctVisitedNames(students)
    ensures var r := Pass(students, loaded, probes, n);
      !r.raised ==> forall i :: 0 <= i < n && Updates(students[i], probes[i]) ==>
        Settled(EntryOf(r.state, KeyOfRecord(students[i], probes[i])), probes[i])
  {
    if n > 0 {
      PassSettles(students, loaded, probes, n - 1);
      var r := Pass(students, loaded, probes, n - 1);
      var s, p := students[n - 1], probes[n - 1];
      if !r.raised && Updates(s, p) {
        VisitEffect(r.state, s, p);
        VisitSettles(r.state, s, p);
        forall i | 0 <= i < n - 1 && Updates(students[i], probes[i])
          ensures KeyOfRecord(students[i], probes[i]) != KeyOfRecord(s, p)
        {
          assert Named(students[i]) && Named(s);
        }
      }
    }
  }

  /** Visiting settled students again keeps the state, saves nothing and does not raise. */
  lemma {:induction false} PassOverSettled(students: seq<Json>, start: State, probes: seq<Probe>, n: nat)
    requires n <= |students| == |probes|
    requires forall i :: 0 <= i < n ==> !Fails(students[i], probes[i])
    requires forall i :: 0 <= i < n && Updates(students[i], probes[i]) ==>
      Settled(EntryOf(start, KeyOfRecord(students[i], probes[i])), probes[i])
    ensures Pass(students, start, probes, n) == Run(start, [], false)
  {
    if n > 0 {
      PassOverSettled(students, start, probes, n - 1);
      var s, p := students[n - 1], probes[n - 1];
      if Updates(s, p) {
        VisitOfSettled(start, s, p);
      } else {
        VisitRaisesIff(start, s, p);
      }
    }
  }

  /** A second pass with the same answers from GitHub, after a first one that did not
      raise, finds nothing to save (when no two visited records share a name). */
  lemma RecheckIsQuiet(students: seq<Json>, loaded: State, probes: seq<Probe>)
    requires |students| == |probes|
    requires DistinctVisitedNames(students)
    ensures var r := Pass(students, loaded, probes, |students|);
      !r.raised ==> Pass(students, r.state, probes, |students|) == Run(r.state, [], false)
  {
    var r := Pass(students, loaded, probes, |students|);
    if !r.raised {
      PassSettles(students, loaded, probes, |students|);
      PassRaisesIff(students, loaded, probes, |students|);
      PassOverSettled(students, r.state, probes, |students|);
    }
  }
}
