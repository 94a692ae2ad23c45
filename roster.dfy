/**
 * The roster handlers of src/xueyuanzuoye/stu_homework.py: add, update and
 * delete a student, and set one phase score. Each takes the request body
 * and the loaded roster and yields the reply and the roster that is saved
 * (the loaded roster itself when the request is refused). Flask, the file
 * and the HTTP reply bodies beyond the status and error text are left out.
 */
module Roster {
  import opened Wrappers
  import opened PyStr
  import opened Json
  import opened Scores
  import opened ResponseCache

  /** The reply: 200, 400, 404, 409, or 500 for an exception the handler does not catch. */
  datatype Reply = Ok | BadRequest(error: string) | NotFound(error: string) | Conflict(error: string) | ServerError

  function Status(r: Reply): int {
    match r
    case Ok => 200
    case BadRequest(_) => 400
    case NotFound(_) => 404
    case Conflict(_) => 409
    case ServerError => 500
  }

  const MissingNameOrRepo := "missing name or repo"
  const NameExists := "name exists"
  const RepoExists := "repo exists"

  /** `(data.get(key) or "").strip()`; `None` when the value is a truthy non-string
      (its `.strip()` raises AttributeError). */
  function StrippedField(data: Record, key: string): (r: Option<string>)
    ensures !Truthy(Get(data, key, JNull)) ==> r == Some("")
    ensures Get(data, key, JNull).JStr? ==> r == Some(Strip(Get(data, key, JNull).s))
  {
    var v := Get(data, key, JNull);
    if !Truthy(v) then Some("") else if v.JStr? then Some(Strip(v.s)) else None
  }

  /** The scores of a request body: `clamp_score` of each of five given entries, else five zeros. */
  function RequestScores(data: Record): (r: seq<int>)
    ensures |r| == PhaseCount && forall k :: 0 <= k < |r| ==> 0 <= r[k] <= 100
    ensures "scores" in data && data["scores"].JArr? && |data["scores"].items| == PhaseCount ==> r == ClampAll(data["scores"].items)
    ensures !("scores" in data && data["scores"].JArr? && |data["scores"].items| == PhaseCount) ==> r == InitScores()
  {
    var v := Get(data, "scores", JArr(IntsToJson(InitScores())));
    if v.JArr? && |v.items| == PhaseCount then ClampAll(v.items) else InitScores()
  }

  /** Some record has this name (`any(s.get("name") == name for s in students)`). */
  predicate NameTaken(students: seq<Record>, name: string) {
    exists i :: 0 <= i < |students| && Get(students[i], "name", JNull) == JStr(name)
  }

  /** Some record has this repository. */
  predicate RepoTaken(students: seq<Record>, repo: string) {
    exists i :: 0 <= i < |students| && Get(students[i], "repo", JNull) == JStr(repo)
  }

  /** The roster invariant the handlers keep: no two records share a string name or a string repository. */
  predicate Unique(students: seq<Record>) {
    forall i, j :: 0 <= i < j < |students| ==>
      (Get(students[i], "name", JNull).JStr? ==> Get(students[i], "name", JNull) != Get(students[j], "name", JNull))
      && (Get(students[i], "repo", JNull).JStr? ==> Get(students[i], "repo", JNull) != Get(students[j], "repo", JNull))
  }

  /** `next((s for s in students if s.get("name") == name), None)`, as an index. */
  function FirstNamed(students: seq<Record>, name: string): (r: Option<nat>)
    ensures r.Some? ==> (r.value < |students| && Get(students[r.value], "name", JNull) == JStr(name)
      && forall i :: 0 <= i < r.value ==> Get(students[i], "name", JNull) != JStr(name))
    ensures r.None? <==> !NameTaken(students, name)
  {
    if students == [] then None
    else if Get(students[0], "name", JNull) == JStr(name) then Some(0)
    else
      var t := FirstNamed(students[1..], name);
      assert forall i :: 1 <= i < |students| ==> students[1..][i - 1] == students[i];
      if t.None? then None else Some(t.value + 1)
  }

  function NewRecord(name: string, repo: string, scores: seq<int>): Record {
    map["name" := JStr(name), "repo" := JStr(repo), "scores" := JArr(IntsToJson(scores))]
  }

  /** `api_students_add`. */
  function Add(data: Record, students: seq<Record>): (r: (Reply, seq<Record>))
    ensures r.0 != Ok ==> r.1 == students
    ensures r.0 == Ok ==> |r.1| == |students| + 1 && r.1[..|students|] == students
  {
    match (StrippedField(data, "name"), StrippedField(data, "repo"))
    case (Some(name), Some(repo)) =>
      var scores := RequestScores(data);
      if name == [] || repo == [] then (BadRequest(MissingNameOrRepo), students)
      else if NameTaken(students, name) then (Conflict(NameExists), students)
      else if RepoTaken(students, repo) then (Conflict(RepoExists), students)
      else (Ok, students + [NewRecord(name, repo, scores)])
    case _ => (ServerError, students)
  }

  /** The add request is accepted exactly when both fields are non-empty strings after stripping
      and neither the name nor the repository is taken; then exactly one record is appended. */
  lemma AddAccepts(data: Record, students: seq<Record>, name: string, repo: string)
    requires StrippedField(data, "name") == Some(name) && StrippedField(data, "repo") == Some(repo)
    ensures (Add(data, students).0 == Ok) == (name != [] && repo != [] && !NameTaken(students, name) && !RepoTaken(students, repo))
    ensures Add(data, students).0 == Ok ==> Add(data, students).1 == students + [NewRecord(name, repo, RequestScores(data))]
  {
  }

  /** The add request is refused with 400 for an empty field, else with 409 for a taken name, else
      with 409 for a taken repository. */
  lemma AddRefusals(data: Record, students: seq<Record>, name: string, repo: string)
    requires StrippedField(data, "name") == Some(name) && StrippedField(data, "repo") == Some(repo)
    ensures name == [] || repo == [] ==> Add(data, students).0 == BadRequest(MissingNameOrRepo)
    ensures name != [] && repo != [] && NameTaken(students, name) ==> Add(data, students).0 == Conflict(NameExists)
    ensures name != [] && repo != [] && !NameTaken(students, name) && RepoTaken(students, repo) ==>
      Add(data, students).0 == Conflict(RepoExists)
  {
  }

  /** `(data.get("old_name") or name).strip()`. */
  function OldName(data: Record, name: string): Option<string> {
    var v := Get(data, "old_name", JNull);
    if !Truthy(v) then Some(Strip(name)) else if v.JStr? then Some(Strip(v.s)) else None
  }

  /** The repository is held by a record other than the one at `t` (`s is not target`). */
  predicate RepoHeldByOther(students: seq<Record>, repo: string, t: nat) {
    exists i :: 0 <= i < |students| && i != t && Get(students[i], "repo", JNull) == JStr(repo)
  }

  /** The record a successful update writes at the target. */
  function Updated(data: Record, target: Record, name: string, repo: string): Record {
    var e := target["name" := JStr(name)]["repo" := JStr(repo)];
    if "scores" in data then e["scores" := JArr(IntsToJson(RequestScores(data)))] else e
  }

  /** `api_students_update`. */
  function Update(data: Record, students: seq<Record>): (r: (Reply, seq<Record>))
    ensures r.0 != Ok ==> r.1 == students
    ensures |r.1| == |students|
  {
    match (StrippedField(data, "name"), StrippedField(data, "repo"))
    case (Some(name), Some(repo)) =>
      (match OldName(data, name)
       case None => (ServerError, students)
       case Some(oldName) =>
         if name == [] || repo == [] || oldName == [] then (BadRequest(MissingNameOrRepo), students)
         else match FirstNamed(students, oldName)
           case None => (NotFound("not found"), students)
           case Some(t) =>
             if name != oldName && NameTaken(students, name) then (Conflict(NameExists), students)
             else if RepoHeldByOther(students, repo, t) then (Conflict(RepoExists), students)
             else (Ok, students[t := Updated(data, students[t], name, repo)]))
    case _ => (ServerError, students)
  }

  /** The update request is refused with 400 for an empty name, repository or old name,
      and with 404 when no record has the old name. */
  lemma UpdateRefusals(data: Record, students: seq<Record>, name: string, repo: string, oldName: string)
    requires StrippedField(data, "name") == Some(name) && StrippedField(data, "repo") == Some(repo)
    requires OldName(data, name) == Some(oldName)
    ensures name == [] || repo == [] || oldName == [] ==> Update(data, students).0 == BadRequest(MissingNameOrRepo)
    ensures name != [] && repo != [] && oldName != [] && !NameTaken(students, oldName) ==>
      Update(data, students).0 == NotFound("not found")
  {
  }

  /** Once the record with the old name is found at `t`, the update request is refused with
      409 `name exists` when the new name is another that a record holds, and otherwise with
      409 `repo exists` when a record other than `t` holds the repository. */
  lemma UpdateConflicts(data: Record, students: seq<Record>, name: string, repo: string, oldName: string, t: nat)
    requires StrippedField(data, "name") == Some(name) && StrippedField(data, "repo") == Some(repo)
    requires OldName(data, name) == Some(oldName)
    requires name != [] && repo != [] && oldName != [] && FirstNamed(students, oldName) == Some(t)
    ensures name != oldName && NameTaken(students, name) ==> Update(data, students).0 == Conflict(NameExists)
    ensures !(name != oldName && NameTaken(students, name)) && RepoHeldByOther(students, repo, t) ==>
      Update(data, students).0 == Conflict(RepoExists)
  {
    assert Update(data, students).0 ==
      if name != oldName && NameTaken(students, name) then Conflict(NameExists)
      else if RepoHeldByOther(students, repo, t) then Conflict(RepoExists)
      else Ok;
  }

  /** The update request succeeds exactly when the fields are non-empty, a record has the old name,
      the new name (if different) is not held, and no other record holds the repository. */
  lemma UpdateAccepts(data: Record, students: seq<Record>, name: string, repo: string, oldName: string)
    requires StrippedField(data, "name") == Some(name) && StrippedField(data, "repo") == Some(repo)
    requires OldName(data, name) == Some(oldName)
    ensures Update(data, students).0 == Ok <==>
      name != [] && repo != [] && oldName != [] && FirstNamed(students, oldName).Some?
      && !(name != oldName && NameTaken(students, name))
      && !RepoHeldByOther(students, repo, FirstNamed(students, oldName).value)
  {
  }

  /** A successful update changes only the first record with the old name: it gets the new name and
      repository (and the request's scores when it sent any). */
  lemma UpdateEffect(data: Record, students: seq<Record>, name: string, repo: string, oldName: string)
    requires StrippedField(data, "name") == Some(name) && StrippedField(data, "repo") == Some(repo)
    requires OldName(data, name) == Some(oldName)
    requires Update(data, students).0 == Ok
    ensures FirstNamed(students, oldName).Some?
    ensures var t := FirstNamed(students, oldName).value;
      Update(data, students).1 == students[t := Updated(data, students[t], name, repo)]
  {
    UpdateAccepts(data, students, name, repo, oldName);
    var t := FirstNamed(students, oldName).value;
    assert name != [] && repo != [] && oldName != [];
    assert !(name != oldName && NameTaken(students, name));
    assert !RepoHeldByOther(students, repo, t);
  }

  /** Without `old_name` the record is looked up by the new name. */
  lemma UpdateDefaultsOldName(data: Record, name: string)
    requires !Truthy(Get(data, "old_name", JNull)) && StrippedField(data, "name") == Some(name)
    ensures OldName(data, name) == Some(Strip(name))
  {
  }

  /** `[s for s in students if s.get("name") != name]`. */
  function WithoutName(students: seq<Record>, name: string): (r: seq<Record>)
    ensures |r| <= |students|
    ensures forall i :: 0 <= i < |r| ==> Get(r[i], "name", JNull) != JStr(name)
    ensures forall x :: x in r <==> x in students && Get(x, "name", JNull) != JStr(name)
    ensures |r| == |students| <==> !NameTaken(students, name)
  {
    if students == [] then []
    else
      var rest := WithoutName(students[1..], name);
      assert forall i :: 1 <= i < |students| ==> students[1..][i - 1] == students[i];
      if Get(students[0], "name", JNull) != JStr(name) then [students[0]] + rest else rest
  }

  /** `api_students_delete`. */
  function Delete(data: Record, students: seq<Record>): (r: (Reply, seq<Record>))
    ensures r.0 != Ok ==> r.1 == students
    ensures r.0 == Ok ==> (StrippedField(data, "name").Some? && NameTaken(students, StrippedField(data, "name").value)
      && r.1 == WithoutName(students, StrippedField(data, "name").value))
    ensures (StrippedField(data, "name").Some? && StrippedField(data, "name").value != []
      && !NameTaken(students, StrippedField(data, "name").value)) ==> r.0 == NotFound("not found")
  {
    match StrippedField(data, "name")
    case None => (ServerError, students)
    case Some(name) =>
      if name == [] then (BadRequest("missing name"), students)
      else
        var filtered := WithoutName(students, name);
        if |filtered| == |students| then (NotFound("not found"), students)
        else (Ok, filtered)
  }

  /** The delete request fails with 500 when `.strip()` raises, is refused with 400
      for an empty name and with 404 for an unknown one, and succeeds exactly when
      some record has the name, leaving the records of other names. */
  lemma DeleteAccepts(data: Record, students: seq<Record>)
    ensures StrippedField(data, "name").None? ==> Delete(data, students).0 == ServerError
    ensures StrippedField(data, "name") == Some("") ==> Delete(data, students).0 == BadRequest("missing name")
    ensures Delete(data, students).0 == Ok <==>
      StrippedField(data, "name").Some? && StrippedField(data, "name").value != []
      && NameTaken(students, StrippedField(data, "name").value)
    ensures Delete(data, students).0 == Ok ==> Delete(data, students).1 == WithoutName(students, StrippedField(data, "name").value)
  {
  }

  /** A score change handed to `record_score_change`. */
  datatype ScoreChange = ScoreChange(name: string, phase: nat, oldScore: Json, newScore: int)

  /** The record's five stored scores, reset to zeros when missing or malformed. */
  function StoredScores(s: Record): (r: seq<Json>)
    ensures |r| == PhaseCount
  {
    if "scores" in s && s["scores"].JArr? && |s["scores"].items| == PhaseCount then s["scores"].items
    else IntsToJson(InitScores())
  }

  /** The record after `target["scores"][phase] = score` (with a malformed list reset first). */
  function WithScore(target: Record, phase: nat, score: int): Record
    requires phase < PhaseCount
  {
    target["scores" := JArr(StoredScores(target)[phase := JInt(score)])]
  }

  /** `api_students_score`: the reply, the saved roster and the change recorded, if any.
      The cache invalidation that follows a success is in `PostScore`. */
  function SetScore(data: Record, students: seq<Record>): (r: (Reply, seq<Record>, Option<ScoreChange>))
    ensures r.0 != Ok ==> r.1 == students && r.2 == None
    ensures |r.1| == |students|
  {
    match StrippedField(data, "name")
    case None => (ServerError, students, None)
    case Some(name) =>
      if name == [] then (BadRequest("missing name"), students, None)
      else if "phase" !in data || "score" !in data then (BadRequest("missing phase or score"), students, None)
      else match PyInt(data["phase"])
        case None => (BadRequest("invalid phase or score"), students, None)
        case Some(phase) =>
          if phase < 0 || phase > 4 then (BadRequest("invalid phase"), students, None)
          else
            var score := ClampScore(data["score"]);
            match FirstNamed(students, name)
            case None => (NotFound("not found"), students, None)
            case Some(t) =>
              var previous := StoredScores(students[t])[phase];
              (Ok, students[t := WithScore(students[t], phase, score)],
               if !PyEqInt(previous, score) then Some(ScoreChange(name, phase, previous, score)) else None)
  }

  /** The score request is refused with 400 without a name, without `phase` or `score`, or for a
      phase that is not an integer in [0, 4], and with 404 for an unknown name; it succeeds otherwise. */
  lemma SetScoreAccepts(data: Record, students: seq<Record>, name: string)
    requires StrippedField(data, "name") == Some(name)
    ensures name == [] ==> SetScore(data, students).0 == BadRequest("missing name")
    ensures name != [] && ("phase" !in data || "score" !in data) ==> SetScore(data, students).0 == BadRequest("missing phase or score")
    ensures name != [] && "phase" in data && "score" in data && PyInt(data["phase"]).None? ==>
      SetScore(data, students).0 == BadRequest("invalid phase or score")
    ensures (name != [] && "phase" in data && "score" in data && PyInt(data["phase"]).Some?
             && !(0 <= PyInt(data["phase"]).value < PhaseCount)) ==>
      SetScore(data, students).0 == BadRequest("invalid phase")
    ensures (name != [] && "phase" in data && "score" in data && PyInt(data["phase"]).Some?
             && 0 <= PyInt(data["phase"]).value < PhaseCount && !NameTaken(students, name)) ==>
      SetScore(data, students).0 == NotFound("not found")
    ensures SetScore(data, students).0 == Ok <==>
      name != [] && "phase" in data && "score" in data && PyInt(data["phase"]).Some?
      && 0 <= PyInt(data["phase"]).value < PhaseCount && NameTaken(students, name)
  {
  }

  /** `.strip()` of a truthy value that is not a string raises, and every roster handler then
      answers 500 and saves the roster unchanged: the name in all four, the repository in add and
      update, and `old_name` in update. */
  lemma StripRaisesServerError(data: Record, students: seq<Record>)
    ensures StrippedField(data, "name").None? ==>
      Add(data, students) == (ServerError, students) && Update(data, students) == (ServerError, students)
      && Delete(data, students) == (ServerError, students) && SetScore(data, students) == (ServerError, students, None)
    ensures StrippedField(data, "repo").None? ==>
      Add(data, students) == (ServerError, students) && Update(data, students) == (ServerError, students)
    ensures (StrippedField(data, "name").Some? && StrippedField(data, "repo").Some?
             && OldName(data, StrippedField(data, "name").value).None?) ==>
      Update(data, students) == (ServerError, students)
  {
  }

  /** A successful score update changes only the first record with the name, setting its phase
      score to `clamp_score(score)`; a change is recorded exactly when the stored value differed. */
  lemma SetScoreEffect(data: Record, students: seq<Record>, name: string)
    requires StrippedField(data, "name") == Some(name)
    requires SetScore(data, students).0 == Ok
    ensures "phase" in data && "score" in data && PyInt(data["phase"]).Some? && 0 <= PyInt(data["phase"]).value < PhaseCount
    ensures FirstNamed(students, name).Some?
    ensures var r := SetScore(data, students);
      var phase := PyInt(data["phase"]).value;
      var score := ClampScore(data["score"]);
      var t := FirstNamed(students, name).value;
      && r.1 == students[t := WithScore(students[t], phase, score)]
      && (r.2.Some? <==> !PyEqInt(StoredScores(students[t])[phase], score))
      && (r.2.Some? ==> r.2.value == ScoreChange(name, phase, StoredScores(students[t])[phase], score))
  {
  }

  /** The whole score request against the response cache: the handler's reply,
      saved roster and recorded change are those of `SetScore`; after a
      successful update every cached view misses, and a refused request leaves
      the cache as it was. */
  method PostScore<V>(data: Record, students: seq<Record>, cache: Cache<V>)
      returns (reply: Reply, saved: seq<Record>, change: Option<ScoreChange>)
    modifies cache
    ensures (reply, saved, change) == SetScore(data, students)
    ensures reply == Ok ==> cache.slots.Keys == old(cache.slots).Keys && forall k, t :: cache.Get(k, t) == None
    ensures reply != Ok ==> cache.slots == old(cache.slots)
  {
    var r := SetScore(data, students);
    reply, saved, change := r.0, r.1, r.2;
    if reply == Ok {
      cache.Invalidate();
    }
  }

  /** Records with the same name and repository fields. */
  predicate SameKeys(a: Record, b: Record) {
    Get(a, "name", JNull) == Get(b, "name", JNull) && Get(a, "repo", JNull) == Get(b, "repo", JNull)
  }

  /** Replacing one record by one with fresh name and repository keeps the roster unique. */
  lemma ReplaceKeepsUnique(students: seq<Record>, t: nat, e: Record)
    requires Unique(students) && t < |students|
    requires forall i :: 0 <= i < |students| && i != t ==>
      (Get(e, "name", JNull).JStr? ==> Get(students[i], "name", JNull) != Get(e, "name", JNull))
      && (Get(e, "repo", JNull).JStr? ==> Get(students[i], "repo", JNull) != Get(e, "repo", JNull))
    ensures Unique(students[t := e])
  {
    var s2 := students[t := e];
    forall i, j | 0 <= i < j < |s2|
      ensures Get(s2[i], "name", JNull).JStr? ==> Get(s2[i], "name", JNull) != Get(s2[j], "name", JNull)
      ensures Get(s2[i], "repo", JNull).JStr? ==> Get(s2[i], "repo", JNull) != Get(s2[j], "repo", JNull)
    {
      if i != t && j != t {
        assert s2[i] == students[i] && s2[j] == students[j];
      }
    }
  }

  /** Appending a record whose string name and repository no record holds keeps the roster unique. */
  lemma AppendKeepsUnique(students: seq<Record>, e: Record, name: string, repo: string)
    requires Unique(students)
    requires Get(e, "name", JNull) == JStr(name) && Get(e, "repo", JNull) == JStr(repo)
    requires !NameTaken(students, name) && !RepoTaken(students, repo)
    ensures Unique(students + [e])
  {
    var s2 := students + [e];
    forall i, j | 0 <= i < j < |s2|
      ensures Get(s2[i], "name", JNull).JStr? ==> Get(s2[i], "name", JNull) != Get(s2[j], "name", JNull)
      ensures Get(s2[i], "repo", JNull).JStr? ==> Get(s2[i], "repo", JNull) != Get(s2[j], "repo", JNull)
    {
      if j == |students| {
        assert s2[j] == e && s2[i] == students[i];
      } else {
        assert s2[i] == students[i] && s2[j] == students[j];
      }
    }
  }

  /** A new record holds the name and the repository it was made with. */
  lemma NewRecordFields(name: string, repo: string, scores: seq<int>)
    ensures Get(NewRecord(name, repo, scores), "name", JNull) == JStr(name)
    ensures Get(NewRecord(name, repo, scores), "repo", JNull) == JStr(repo)
  {
  }

  /** Adding keeps names and repositories unique. */
  lemma AddKeepsUnique(data: Record, students: seq<Record>)
    requires Unique(students)
    ensures Unique(Add(data, students).1)
  {
    var name, repo := StrippedField(data, "name"), StrippedField(data, "repo");
    if name.Some? && repo.Some? {
      AddAccepts(data, students, name.value, repo.value);
      if Add(data, students).0 == Ok {
        var e := NewRecord(name.value, repo.value, RequestScores(data));
        NewRecordFields(name.value, repo.value, RequestScores(data));
        AppendKeepsUnique(students, e, name.value, repo.value);
      }
    }
  }

  /** When an update is accepted, no record but the target holds the new name or the repository. */
  lemma UpdatedFieldsFree(students: seq<Record>, name: string, repo: string, oldName: string, t: nat)
    requires Unique(students) && FirstNamed(students, oldName) == Some(t)
    requires !(name != oldName && NameTaken(students, name)) && !RepoHeldByOther(students, repo, t)
    ensures forall i :: 0 <= i < |students| && i != t ==>
      Get(students[i], "name", JNull) != JStr(name) && Get(students[i], "repo", JNull) != JStr(repo)
  {
    forall i | 0 <= i < |students| && i != t
      ensures Get(students[i], "name", JNull) != JStr(name)
    {
      if name == oldName && i < t {
        assert Get(students[i], "name", JNull) != Get(students[t], "name", JNull);
      } else if name == oldName {
        assert Get(students[t], "name", JNull).JStr?;
      }
    }
  }

  /** Updating keeps names and repositories unique. */
  lemma UpdateKeepsUnique(data: Record, students: seq<Record>)
    requires Unique(students)
    ensures Unique(Update(data, students).1)
  {
    var r := Update(data, students);
    if r.0 == Ok {
      var name := StrippedField(data, "name").value;
      var repo := StrippedField(data, "repo").value;
      var oldName := OldName(data, name).value;
      UpdateAccepts(data, students, name, repo, oldName);
      UpdateEffect(data, students, name, repo, oldName);
      var t := FirstNamed(students, oldName).value;
      var e := Updated(data, students[t], name, repo);
      UpdatedFields(data, students[t], name, repo);
      UpdatedFieldsFree(students, name, repo, oldName, t);
      ReplaceKeepsUnique(students, t, e);
    }
  }

  lemma UpdatedFields(data: Record, target: Record, name: string, repo: string)
    ensures Get(Updated(data, target, name, repo), "name", JNull) == JStr(name)
    ensures Get(Updated(data, target, name, repo), "repo", JNull) == JStr(repo)
  {
  }

  /** Filtering keeps the order of the records: the filter of two rosters one after the
      other is the two filters one after the other. */
  lemma {:induction false} WithoutNameOfConcat(a: seq<Record>, b: seq<Record>, name: string)
    ensures WithoutName(a + b, name) == WithoutName(a, name) + WithoutName(b, name)
  {
    if a == [] {
      assert a + b == b;
    } else {
      assert (a + b)[0] == a[0] && (a + b)[1..] == a[1..] + b;
      WithoutNameOfConcat(a[1..], b, name);
    }
  }

  /** Deleting keeps names and repositories unique. */
  lemma DeleteKeepsUnique(data: Record, students: seq<Record>)
    requires Unique(students)
    ensures Unique(Delete(data, students).1)
  {
    var r := Delete(data, students);
    if r.0 == Ok {
      WithoutNameKeepsUnique(students, StrippedField(data, "name").value);
    }
  }

  lemma {:induction false} WithoutNameKeepsUnique(students: seq<Record>, name: string)
    requires Unique(students)
    ensures Unique(WithoutName(students, name))
  {
    if students != [] {
      var tail := students[1..];
      assert forall i :: 1 <= i < |students| ==> tail[i - 1] == students[i];
      WithoutNameKeepsUnique(tail, name);
      var rest := WithoutName(tail, name);
      if Get(students[0], "name", JNull) != JStr(name) {
        forall j | 0 <= j < |rest| ensures
          (Get(students[0], "name", JNull).JStr? ==> Get(students[0], "name", JNull) != Get(rest[j], "name", JNull))
          && (Get(students[0], "repo", JNull).JStr? ==> Get(students[0], "repo", JNull) != Get(rest[j], "repo", JNull))
        {
          assert rest[j] in tail;
          var k :| 0 <= k < |tail| && tail[k] == rest[j];
          assert students[k + 1] == rest[j];
        }
        PrependKeepsUnique(students[0], rest);
      }
    }
  }

  /** A record differing in name and repository from every record of a unique roster
      keeps it unique when put in front. */
  lemma PrependKeepsUnique(x: Record, rest: seq<Record>)
    requires Unique(rest)
    requires forall j :: 0 <= j < |rest| ==>
      (Get(x, "name", JNull).JStr? ==> Get(x, "name", JNull) != Get(rest[j], "name", JNull))
      && (Get(x, "repo", JNull).JStr? ==> Get(x, "repo", JNull) != Get(rest[j], "repo", JNull))
    ensures Unique([x] + rest)
  {
    var s := [x] + rest;
    forall i, j | 0 <= i < j < |s|
      ensures Get(s[i], "name", JNull).JStr? ==> Get(s[i], "name", JNull) != Get(s[j], "name", JNull)
      ensures Get(s[i], "repo", JNull).JStr? ==> Get(s[i], "repo", JNull) != Get(s[j], "repo", JNull)
    {
      assert s[j] == rest[j - 1];
      if i > 0 {
        assert s[i] == rest[i - 1];
      }
    }
  }

  /** Setting a score changes no name or repository, so keeps them unique. */
  lemma SetScoreKeepsUnique(data: Record, students: seq<Record>)
    requires Unique(students)
    ensures Unique(SetScore(data, students).1)
  {
    var r := SetScore(data, students);
    if r.0 == Ok {
      var name := StrippedField(data, "name").value;
      SetScoreEffect(data, students, name);
      var t := FirstNamed(students, name).value;
      var phase := PyInt(data["phase"]).value;
      var e := WithScore(students[t], phase, ClampScore(data["score"]));
      WithScoreEffect(students[t], phase, ClampScore(data["score"]));
      forall i | 0 <= i < |students| && i != t
        ensures (Get(e, "name", JNull).JStr? ==> Get(students[i], "name", JNull) != Get(e, "name", JNull))
          && (Get(e, "repo", JNull).JStr? ==> Get(students[i], "repo", JNull) != Get(e, "repo", JNull))
      {
        if i < t {
          assert Get(students[i], "name", JNull).JStr? ==> Get(students[i], "name", JNull) != Get(students[t], "name", JNull);
        }
      }
      ReplaceKeepsUnique(students, t, e);
    }
  }

  /** The target's scores are five values with the new one at `phase`; the other phases keep their
      stored values and every other field is untouched. */
  lemma WithScoreEffect(target: Record, phase: nat, score: int)
    requires phase < PhaseCount
    ensures var after := WithScore(target, phase, score);
      && SameKeys(after, target)
      && "scores" in after && after["scores"].JArr? && |after["scores"].items| == PhaseCount
      && after["scores"].items[phase] == JInt(score)
      && (forall k :: 0 <= k < PhaseCount && k != phase ==> after["scores"].items[k] == StoredScores(target)[k])
      && (forall key :: key in target && key != "scores" ==> key in after && after[key] == target[key])
  {
  }
}
