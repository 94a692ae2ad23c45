/**
 * `api_students_import`, identical in src/xueyuanzuoye/stu_homework.py and in
 * the root stu_homework.py: collect `(name, repo)` entries from the request's
 * `students` list and its `text`, then merge them into the roster. A known
 * name gets the entry's repository; an unknown name with an unused
 * repository is appended; everything else is skipped.
 */
module ImportMerge {
  import opened Wrappers
  import opened PyStr
  import opened Json
  import opened Roster
  import opened RepoUrl
  import opened ImportText

  /** An entry to merge. A name from the request's list may be any truthy JSON value;
      a repository has been through `normalize_repo_url`, so it is a string. */
  datatype Item = Item(name: Json, repo: string)

  /** The counts in the reply. */
  datatype Tally = Tally(added: nat, updated: nat, skipped: nat)

  function Total(t: Tally): nat { t.added + t.updated + t.skipped }

  /** The merge state: the roster so far, `existing_repos` (its string members; a string
      is never equal to another kind of value) and the counts. */
  datatype Merge = Merge(students: seq<Record>, repos: set<string>, tally: Tally)

  /** `existing_by_name[name]`: the last record of the loaded roster with that truthy name
      (a later record overwrites an earlier one in the dict). Records appended by the
      import are not in the dict. */
  function ByName(students: seq<Record>, name: Json): (r: Option<nat>)
    ensures r.Some? ==> r.value < |students| && Truthy(name) && Get(students[r.value], "name", JNull) == name
    ensures r.Some? ==> forall i :: r.value < i < |students| ==> Get(students[i], "name", JNull) != name
    ensures r.None? ==> !Truthy(name) || forall i :: 0 <= i < |students| ==> Get(students[i], "name", JNull) != name
  {
    if students == [] || !Truthy(name) then None
    else if Get(students[|students| - 1], "name", JNull) == name then Some(|students| - 1)
    else ByName(students[..|students| - 1], name)
  }

  /** `existing_repos`, restricted to its strings. */
  function StringRepos(students: seq<Record>): set<string> {
    if students == [] then {}
    else
      var v := Get(students[|students| - 1], "repo", JNull);
      StringRepos(students[..|students| - 1]) + (if v.JStr? && v.s != [] then {v.s} else {})
  }

  /** The strings in `existing_repos` are the non-empty repositories of the roster. */
  lemma {:induction false} StringReposHolds(students: seq<Record>, x: string)
    ensures x in StringRepos(students) <==> x != [] && RepoTaken(students, x)
  {
    if students != [] {
      var front := students[..|students| - 1];
      StringReposHolds(front, x);
      assert forall i :: 0 <= i < |front| ==> front[i] == students[i];
      if RepoTaken(students, x) && !RepoTaken(front, x) {
        var i :| 0 <= i < |students| && Get(students[i], "repo", JNull) == JStr(x);
        assert i == |students| - 1;
      }
    }
  }

  /** The record an import appends. */
  function Imported(e: Item): Record {
    map["name" := e.name, "repo" := JStr(e.repo)]
  }

  /** One iteration of the merge loop over `loaded`, the roster as loaded. */
  function Step(loaded: seq<Record>, m: Merge, e: Item): (r: Merge)
    requires |loaded| <= |m.students|
    ensures |loaded| <= |r.students|
    ensures Total(r.tally) == Total(m.tally) + 1
  {
    var t := m.tally;
    if !Truthy(e.name) || e.repo == [] then Merge(m.students, m.repos, t.(skipped := t.skipped + 1))
    else match ByName(loaded, e.name)
      case Some(k) =>
        if Get(m.students[k], "repo", JNull) != JStr(e.repo) then
          Merge(m.students[k := m.students[k]["repo" := JStr(e.repo)]], m.repos, t.(updated := t.updated + 1))
        else Merge(m.students, m.repos, t.(skipped := t.skipped + 1))
      case None =>
        if e.repo in m.repos then Merge(m.students, m.repos, t.(skipped := t.skipped + 1))
        else Merge(m.students + [Imported(e)], m.repos + {e.repo}, t.(added := t.added + 1))
  }

  /** The state before the first entry. */
  function Start(loaded: seq<Record>): Merge {
    Merge(loaded, StringRepos(loaded), Tally(0, 0, 0))
  }

  /** The merge of `entries`, in order, into the loaded roster. */
  function MergeAll(loaded: seq<Record>, entries: seq<Item>): (r: Merge)
    ensures |loaded| <= |r.students|
    ensures Total(r.tally) == |entries|
  {
    if entries == [] then Start(loaded)
    else Step(loaded, MergeAll(loaded, entries[..|entries| - 1]), entries[|entries| - 1])
  }

  /** The branches of `Step`, one lemma each. */
  lemma StepSkipsIncomplete(loaded: seq<Record>, m: Merge, e: Item)
    requires |loaded| <= |m.students| && (!Truthy(e.name) || e.repo == [])
    ensures Step(loaded, m, e) == Merge(m.students, m.repos, m.tally.(skipped := m.tally.skipped + 1))
  {
  }

  lemma StepKnownName(loaded: seq<Record>, m: Merge, e: Item, k: nat)
    requires |loaded| <= |m.students| && Truthy(e.name) && e.repo != [] && ByName(loaded, e.name) == Some(k)
    ensures Step(loaded, m, e) ==
      if Get(m.students[k], "repo", JNull) != JStr(e.repo) then
        Merge(m.students[k := m.students[k]["repo" := JStr(e.repo)]], m.repos, m.tally.(updated := m.tally.updated + 1))
      else Merge(m.students, m.repos, m.tally.(skipped := m.tally.skipped + 1))
  {
  }

  lemma StepUnknownName(loaded: seq<Record>, m: Merge, e: Item)
    requires |loaded| <= |m.students| && Truthy(e.name) && e.repo != [] && ByName(loaded, e.name).None?
    ensures Step(loaded, m, e) ==
      if e.repo in m.repos then Merge(m.students, m.repos, m.tally.(skipped := m.tally.skipped + 1))
      else Merge(m.students + [Imported(e)], m.repos + {e.repo}, m.tally.(added := m.tally.added + 1))
  {
  }

  /** The merge loop of `api_students_import`. */
  method MergeEntries(loaded: seq<Record>, entries: seq<Item>) returns (students: seq<Record>, tally: Tally)
    ensures students == MergeAll(loaded, entries).students && tally == MergeAll(loaded, entries).tally
    ensures tally.added + tally.updated + tally.skipped == |entries|
  {
    students := loaded;
    var existingRepos := StringRepos(loaded);
    var added: nat, updated: nat, skipped: nat := 0, 0, 0;
    assert entries[..0] == [];
    for k := 0 to |entries|
      invariant |loaded| <= |students|
      invariant Merge(students, existingRepos, Tally(added, updated, skipped)) == MergeAll(loaded, entries[..k])
    {
      ghost var m := Merge(students, existingRepos, Tally(added, updated, skipped));
      MergeAllUnfold(loaded, entries[..k + 1]);
      assert entries[..k + 1][..k] == entries[..k];
      var name, repo := entries[k].name, entries[k].repo;
      if !Truthy(name) || repo == [] {
        StepSkipsIncomplete(loaded, m, entries[k]);
        skipped := skipped + 1;
        continue;
      }
      var target := ByName(loaded, name);
      if target.Some? {
        StepKnownName(loaded, m, entries[k], target.value);
        if Get(students[target.value], "repo", JNull) != JStr(repo) {
          students := students[target.value := students[target.value]["repo" := JStr(repo)]];
          updated := updated + 1;
        } else {
          skipped := skipped + 1;
        }
        continue;
      }
      StepUnknownName(loaded, m, entries[k]);
      if repo in existingRepos {
        skipped := skipped + 1;
        continue;
      }
      students := students + [Imported(entries[k])];
      existingRepos := existingRepos + {repo};
      added := added + 1;
    }
    tally := Tally(added, updated, skipped);
    assert entries[..|entries|] == entries;
  }

  /** Two records that differ at most in the repository. */
  predicate SameButRepo(a: Record, b: Record) {
    a - {"repo"} == b - {"repo"}
  }

  /** A record the import appended: `{"name", "repo"}` with a truthy name no loaded record has
      and a repository, listed in `repos`, that no loaded record holds. */
  predicate FreshRecord(loaded: seq<Record>, repos: set<string>, r: Record) {
    && r.Keys == {"name", "repo"}
    && Truthy(r["name"]) && ByName(loaded, r["name"]).None?
    && r["repo"].JStr? && r["repo"].s in repos && r["repo"].s !in StringRepos(loaded)
  }

  /** The loaded records stay in place, with at most their repositories replaced. */
  predicate LoadedKept(loaded: seq<Record>, students: seq<Record>) {
    |loaded| <= |students| && forall i :: 0 <= i < |loaded| ==> SameButRepo(students[i], loaded[i])
  }

  /** No two appended records share a repository. */
  predicate DistinctNewRepos(loaded: seq<Record>, students: seq<Record>) {
    forall i, j :: |loaded| <= i < j < |students| ==> Get(students[i], "repo", JNull) != Get(students[j], "repo", JNull)
  }

  /** What the merged roster is: the loaded records in place, each with at most its repository
      replaced, followed by one fresh record per added entry, no two of them with the same
      repository. */
  predicate MergedFrom(loaded: seq<Record>, m: Merge) {
    && |m.students| == |loaded| + m.tally.added
    && LoadedKept(loaded, m.students)
    && StringRepos(loaded) <= m.repos
    && (forall i :: |loaded| <= i < |m.students| ==> FreshRecord(loaded, m.repos, m.students[i]))
    && DistinctNewRepos(loaded, m.students)
  }

  lemma StepUpdatedKept(loaded: seq<Record>, students: seq<Record>, k: nat, repo: string)
    requires LoadedKept(loaded, students) && k < |loaded|
    ensures LoadedKept(loaded, students[k := students[k]["repo" := JStr(repo)]])
  {
    var s := students[k]["repo" := JStr(repo)];
    assert s - {"repo"} == students[k] - {"repo"};
    var after := students[k := s];
    forall i | 0 <= i < |loaded| ensures SameButRepo(after[i], loaded[i]) {
      if i == k {
        assert after[i] == s;
      }
    }
  }

  lemma StepAppended(loaded: seq<Record>, m: Merge, e: Item)
    requires MergedFrom(loaded, m)
    requires Truthy(e.name) && e.repo != [] && ByName(loaded, e.name).None? && e.repo !in m.repos
    ensures MergedFrom(loaded, Merge(m.students + [Imported(e)], m.repos + {e.repo}, m.tally.(added := m.tally.added + 1)))
  {
    var n := |m.students|;
    var students := m.students + [Imported(e)];
    var repos := m.repos + {e.repo};
    assert students[n] == Imported(e);
    assert forall i :: 0 <= i < n ==> students[i] == m.students[i];
    assert e.repo !in StringRepos(loaded);
    forall i | |loaded| <= i < |students| ensures FreshRecord(loaded, repos, students[i]) {
      if i < n {
        assert FreshRecord(loaded, m.repos, m.students[i]);
      }
    }
    forall i, j | |loaded| <= i < j < |students| ensures Get(students[i], "repo", JNull) != Get(students[j], "repo", JNull) {
      if j == n {
        assert FreshRecord(loaded, m.repos, m.students[i]);
      }
    }
  }

  lemma StepMergedFrom(loaded: seq<Record>, m: Merge, e: Item)
    requires |loaded| <= |m.students| && MergedFrom(loaded, m)
    ensures MergedFrom(loaded, Step(loaded, m, e))
  {
    if Truthy(e.name) && e.repo != [] {
      match ByName(loaded, e.name)
      case Some(k) =>
        if Get(m.students[k], "repo", JNull) != JStr(e.repo) {
          StepUpdatedKept(loaded, m.students, k, e.repo);
        }
      case None =>
        if e.repo !in m.repos {
          StepAppended(loaded, m, e);
        }
    }
  }

  lemma MergedFromStart(loaded: seq<Record>)
    ensures MergedFrom(loaded, Start(loaded))
  {
    assert forall i :: 0 <= i < |loaded| ==> SameButRepo(loaded[i], loaded[i]);
  }

  lemma MergeAllUnfold(loaded: seq<Record>, entries: seq<Item>)
    requires entries != []
    ensures MergeAll(loaded, entries) == Step(loaded, MergeAll(loaded, entries[..|entries| - 1]), entries[|entries| - 1])
  {
  }

  /** The merged roster keeps the loaded records in place, changes at most their repositories,
      and appends exactly one new record per added entry, with a new name and a fresh repository. */
  lemma {:induction false} MergeAllMergedFrom(loaded: seq<Record>, entries: seq<Item>)
    ensures MergedFrom(loaded, MergeAll(loaded, entries))
  {
    if entries != [] {
      var m := MergeAll(loaded, entries[..|entries| - 1]);
      MergeAllMergedFrom(loaded, entries[..|entries| - 1]);
      StepMergedFrom(loaded, m, entries[|entries| - 1]);
      MergeAllUnfold(loaded, entries);
    } else {
      MergedFromStart(loaded);
      assert MergeAll(loaded, entries) == Start(loaded);
    }
  }

  /** A known name gets the entry's repository, the last loaded record with that name being the
      one changed. */
  lemma KnownNameGetsRepo(loaded: seq<Record>, entries: seq<Item>, k: nat)
    requires entries != [] && ByName(loaded, entries[|entries| - 1].name) == Some(k)
    requires entries[|entries| - 1].repo != []
    ensures Get(MergeAll(loaded, entries).students[k], "repo", JNull) == JStr(entries[|entries| - 1].repo)
  {
    StepKnown(loaded, MergeAll(loaded, entries[..|entries| - 1]), entries[|entries| - 1], k);
  }

  lemma StepKnown(loaded: seq<Record>, m: Merge, e: Item, k: nat)
    requires |loaded| <= |m.students| && ByName(loaded, e.name) == Some(k) && e.repo != []
    ensures Get(Step(loaded, m, e).students[k], "repo", JNull) == JStr(e.repo)
  {
  }

  /** `MergeAll` is the fold of `Step` from `Start`. */
  lemma {:induction false} MergeAllSnoc(loaded: seq<Record>, entries: seq<Item>, e: Item)
    ensures MergeAll(loaded, entries + [e]) == Step(loaded, MergeAll(loaded, entries), e)
  {
    assert (entries + [e])[..|entries|] == entries;
  }

  /** Two records with the same string name, or the same string repository, break `Unique`. */
  lemma {:induction false} SharedFieldBreaksUnique(students: seq<Record>, i: nat, j: nat, key: string)
    requires i < |students| && j < |students| && i != j && (key == "name" || key == "repo")
    requires Get(students[i], key, JNull).JStr? && Get(students[i], key, JNull) == Get(students[j], key, JNull)
    ensures !Unique(students)
  {
    var lo, hi := if i < j then i else j, if i < j then j else i;
    assert Get(students[lo], key, JNull).JStr? && Get(students[lo], key, JNull) == Get(students[hi], key, JNull);
  }

  /** An entry with a new name and an unused repository is appended. */
  lemma StepAppends(loaded: seq<Record>, m: Merge, e: Item)
    requires |loaded| <= |m.students| && Truthy(e.name) && e.repo != [] && ByName(loaded, e.name).None?
    requires e.repo !in m.repos
    ensures Step(loaded, m, e) == Merge(m.students + [Imported(e)], m.repos + {e.repo}, m.tally.(added := m.tally.added + 1))
  {
    StepUnknownName(loaded, m, e);
  }

  /** The state after a first entry was appended. */
  function AfterOne(loaded: seq<Record>, e1: Item): Merge {
    Merge(loaded + [Imported(e1)], StringRepos(loaded) + {e1.repo}, Tally(1, 0, 0))
  }

  lemma FirstAppended(loaded: seq<Record>, e1: Item)
    requires Truthy(e1.name) && ByName(loaded, e1.name).None?
    requires e1.repo != [] && e1.repo !in StringRepos(loaded)
    ensures Step(loaded, Start(loaded), e1) == AfterOne(loaded, e1)
  {
    StepAppends(loaded, Start(loaded), e1);
  }

  lemma SecondAppended(loaded: seq<Record>, e1: Item, e2: Item)
    requires Truthy(e2.name) && ByName(loaded, e2.name).None?
    requires e2.repo != [] && e1.repo != e2.repo && e2.repo !in StringRepos(loaded)
    ensures Step(loaded, AfterOne(loaded, e1), e2)
      == Merge(loaded + [Imported(e1), Imported(e2)], StringRepos(loaded) + {e1.repo} + {e2.repo}, Tally(2, 0, 0))
  {
    StepAppends(loaded, AfterOne(loaded, e1), e2);
    assert (loaded + [Imported(e1)]) + [Imported(e2)] == loaded + [Imported(e1), Imported(e2)];
  }

  /** Two entries with a new name and unused repositories are both appended. */
  lemma TwoAppended(loaded: seq<Record>, e1: Item, e2: Item)
    requires Truthy(e1.name) && ByName(loaded, e1.name).None? && Truthy(e2.name) && ByName(loaded, e2.name).None?
    requires e1.repo != [] && e2.repo != [] && e1.repo != e2.repo
    requires !RepoTaken(loaded, e1.repo) && !RepoTaken(loaded, e2.repo)
    ensures Step(loaded, Step(loaded, Start(loaded), e1), e2)
      == Merge(loaded + [Imported(e1), Imported(e2)], StringRepos(loaded) + {e1.repo} + {e2.repo}, Tally(2, 0, 0))
  {
    StringReposHolds(loaded, e1.repo);
    StringReposHolds(loaded, e2.repo);
    FirstAppended(loaded, e1);
    SecondAppended(loaded, e1, e2);
  }

  /** An import does not keep the uniqueness that add and update keep: a new name given twice,
      with two unused repositories, is appended twice ... */
  lemma {:induction false} ImportMayDuplicateName(loaded: seq<Record>, e1: Item, e2: Item)
    requires e1.name == e2.name && e1.name.JStr? && Truthy(e1.name) && ByName(loaded, e1.name).None?
    requires e1.repo != [] && e2.repo != [] && e1.repo != e2.repo
    requires !RepoTaken(loaded, e1.repo) && !RepoTaken(loaded, e2.repo)
    ensures var m := Step(loaded, Step(loaded, Start(loaded), e1), e2);
      m.students == loaded + [Imported(e1), Imported(e2)] && m.tally == Tally(2, 0, 0) && !Unique(m.students)
  {
    TwoAppended(loaded, e1, e2);
    SameNameAppended(loaded, e1, e2);
  }

  lemma SameNameAppended(loaded: seq<Record>, e1: Item, e2: Item)
    requires e1.name == e2.name && e1.name.JStr?
    ensures !Unique(loaded + [Imported(e1), Imported(e2)])
  {
    var students := loaded + [Imported(e1), Imported(e2)];
    assert students[|loaded|] == Imported(e1) && students[|loaded| + 1] == Imported(e2);
    SharedFieldBreaksUnique(students, |loaded|, |loaded| + 1, "name");
  }

  /** ... and a known name takes a repository that another record holds. */
  lemma {:induction false} ImportMayDuplicateRepo(loaded: seq<Record>, e: Item, k: nat, j: nat)
    requires Truthy(e.name) && e.repo != [] && ByName(loaded, e.name) == Some(k)
    requires Unique(loaded) && j < |loaded| && j != k && Get(loaded[j], "repo", JNull) == JStr(e.repo)
    ensures var m := Step(loaded, Start(loaded), e);
      m.students == loaded[k := loaded[k]["repo" := JStr(e.repo)]] && m.tally == Tally(0, 1, 0) && !Unique(m.students)
  {
    assert Get(loaded[k], "repo", JNull) != JStr(e.repo) by {
      if k < j {
        assert Get(loaded[k], "repo", JNull).JStr? ==> Get(loaded[k], "repo", JNull) != Get(loaded[j], "repo", JNull);
      } else {
        assert Get(loaded[j], "repo", JNull) != Get(loaded[k], "repo", JNull);
      }
    }
    StepKnownName(loaded, Start(loaded), e, k);
    var students := loaded[k := loaded[k]["repo" := JStr(e.repo)]];
    assert Get(students[k], "repo", JNull) == JStr(e.repo) == Get(students[j], "repo", JNull);
    SharedFieldBreaksUnique(students, k, j, "repo");
  }

  /** `item.get("name")` / `item.get("repo")` of each dict item with both truthy:
      `None` when a truthy repository is not a string (`.strip()` raises). */
  function ItemsEntries(items: seq<Json>): (r: Option<seq<Item>>)
    ensures r.Some? ==> |r.value| <= |items|
    ensures r.Some? ==> forall k :: 0 <= k < |r.value| ==> Truthy(r.value[k].name)
  {
    if items == [] then Some([])
    else match ItemsEntries(items[..|items| - 1])
      case None => None
      case Some(front) => ItemEntry(front, items[|items| - 1])
  }

  /** One item of the loop added to the entries so far; `None` when it raises. */
  function ItemEntry(front: seq<Item>, item: Json): (r: Option<seq<Item>>)
    ensures r.Some? ==> r.value == front || (|r.value| == |front| + 1 && r.value[..|front|] == front && Truthy(r.value[|front|].name))
  {
    if !item.JObj? then Some(front)
    else
      var name, repo := Get(item.fields, "name", JNull), Get(item.fields, "repo", JNull);
      if !(Truthy(name) && Truthy(repo)) then Some(front)
      else if !repo.JStr? then None
      else Some(front + [Item(name, NormalizeRepoUrl(repo.s))])
  }

  /** One step of the loop of `CollectItems`. */
  lemma ItemsEntriesStep(items: seq<Json>, k: nat)
    requires k < |items|
    ensures ItemsEntries(items[..k + 1]) ==
      match ItemsEntries(items[..k]) case None => None case Some(front) => ItemEntry(front, items[k])
  {
    assert items[..k + 1][..k] == items[..k];
    assert items[..k + 1][k] == items[k];
  }

  /** The loop over `data["students"]`. */
  method CollectItems(items: seq<Json>) returns (entries: Option<seq<Item>>)
    ensures entries == ItemsEntries(items)
  {
    var acc: seq<Item> := [];
    for k := 0 to |items|
      invariant ItemsEntries(items[..k]) == Some(acc)
    {
      ItemsEntriesStep(items, k);
      var item := items[k];
      if item.JObj? {
        var name, repo := Get(item.fields, "name", JNull), Get(item.fields, "repo", JNull);
        if Truthy(name) && Truthy(repo) {
          if !repo.JStr? {
            assert ItemsEntries(items[..k + 1]) == None;
            ItemsEntriesStaysNone(items, k + 1);
            return None;
          }
          acc := acc + [Item(name, NormalizeRepoUrl(repo.s))];
        }
      }
    }
    assert items[..|items|] == items;
    return Some(acc);
  }

  /** Once an item raises, the whole list does. */
  lemma {:induction false} ItemsEntriesStaysNone(items: seq<Json>, k: nat)
    requires k <= |items| && ItemsEntries(items[..k]) == None
    ensures ItemsEntries(items) == None
    decreases |items| - k
  {
    if k < |items| {
      assert items[..k + 1][..k] == items[..k];
      ItemsEntriesStaysNone(items, k + 1);
    } else {
      assert items[..k] == items;
    }
  }

  /** A name the dict and the set can hash: not a list and not an object. */
  predicate Hashable(v: Json) {
    !v.JArr? && !v.JObj?
  }

  /** Building `existing_by_name` and `existing_repos` raises TypeError for an unhashable truthy
      name or repository of the roster. */
  predicate RosterHashable(students: seq<Record>) {
    forall i :: 0 <= i < |students| ==>
      (Truthy(Get(students[i], "name", JNull)) ==> Hashable(Get(students[i], "name", JNull)))
      && (Truthy(Get(students[i], "repo", JNull)) ==> Hashable(Get(students[i], "repo", JNull)))
  }

  /** `name in existing_by_name` raises TypeError for an unhashable name of an entry that gets
      that far (a truthy name and a non-empty repository). */
  predicate EntriesHashable(entries: seq<Item>) {
    forall k :: 0 <= k < |entries| ==> (Truthy(entries[k].name) && entries[k].repo != []) ==> Hashable(entries[k].name)
  }

  /** The entries of a parsed text: its names are strings. */
  function TextItems(entries: seq<Entry>): (r: seq<Item>)
    ensures |r| == |entries|
    ensures forall k :: 0 <= k < |r| ==> r[k] == Item(JStr(entries[k].name), entries[k].repo)
  {
    if entries == [] then [] else TextItems(entries[..|entries| - 1]) + [Item(JStr(entries[|entries| - 1].name), entries[|entries| - 1].repo)]
  }

  /** `new_entries`: the list part, then the text part; `None` when building it raises. */
  function RequestEntries(data: Record, urlPath: string -> string): Option<seq<Item>> {
    var items := Get(data, "students", JNull);
    var fromItems := if items.JArr? then ItemsEntries(items.items) else Some([]);
    var text := Get(data, "text", JNull);
    var fromText := if text.JStr? && Strip(text.s) != [] then TextItems(ParseLines(SplitLines(text.s), urlPath)) else [];
    if fromItems.None? then None else Some(fromItems.value + fromText)
  }

  /** The building of `new_entries` from the request body. */
  method CollectEntries(data: Record, urlPath: string -> string) returns (entries: Option<seq<Item>>)
    ensures entries == RequestEntries(data, urlPath)
  {
    var newEntries: seq<Item> := [];
    var items := Get(data, "students", JNull);
    if items.JArr? {
      var collected := CollectItems(items.items);
      if collected.None? {
        return None;
      }
      newEntries := collected.value;
    }
    var text := Get(data, "text", JNull);
    if text.JStr? && Strip(text.s) != [] {
      var parsed := ParseImportText(text.s, urlPath);
      newEntries := newEntries + TextItems(parsed);
    }
    ghost var fromItems := if items.JArr? then ItemsEntries(items.items) else Some([]);
    ghost var fromText := if text.JStr? && Strip(text.s) != [] then TextItems(ParseLines(SplitLines(text.s), urlPath)) else [];
    assert fromItems.Some? && newEntries == fromItems.value + fromText;
    return Some(newEntries);
  }

  /** `api_students_import` on the request body `data` and the loaded roster: the reply, the counts
      of a successful import and the roster that is saved (the loaded one when nothing is saved).
      An exception the handler does not catch is the reply `ServerError`. */
  method ImportStudents(data: Record, loaded: seq<Record>, urlPath: string -> string)
    returns (reply: Reply, tally: Tally, saved: seq<Record>)
    ensures !reply.Ok? ==> saved == loaded
    ensures RequestEntries(data, urlPath).None? ==> reply == ServerError
    ensures RequestEntries(data, urlPath) == Some([]) ==> reply == BadRequest("no valid entries")
    ensures RequestEntries(data, urlPath).Some? && RequestEntries(data, urlPath).value != [] ==>
      var entries := RequestEntries(data, urlPath).value;
      if RosterHashable(loaded) && EntriesHashable(entries) then
        reply == Ok && saved == MergeAll(loaded, entries).students && tally == MergeAll(loaded, entries).tally
      else reply == ServerError
  {
    reply, tally, saved := ServerError, Tally(0, 0, 0), loaded;
    var newEntries := CollectEntries(data, urlPath);
    if newEntries.None? {
      return;
    }
    if newEntries.value == [] {
      reply := BadRequest("no valid entries");
      return;
    }
    if !RosterHashable(loaded) || !EntriesHashable(newEntries.value) {
      return;
    }
    saved, tally := MergeEntries(loaded, newEntries.value);
    reply := Ok;
  }
}
