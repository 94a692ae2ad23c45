/**
 * The add and update handlers of the root stu_homework.py, the older copy of
 * the application. They decide exactly as those of src/xueyuanzuoye/stu_homework.py
 * do, but store only a name and a repository: an added record has no scores
 * and an update leaves the scores alone. Delete is the same in both copies
 * and is `Roster.Delete`.
 */
module LegacyRoster {
  import opened Wrappers
  import opened Json
  import Roster

  /** The record the root add appends. */
  function NewRecord(name: string, repo: string): Record {
    map["name" := JStr(name), "repo" := JStr(repo)]
  }

  /** The root `api_students_add`. */
  function Add(data: Record, students: seq<Record>): (r: (Roster.Reply, seq<Record>))
    ensures r.0 != Roster.Ok ==> r.1 == students
    ensures r.0 == Roster.Ok ==> |r.1| == |students| + 1 && r.1[..|students|] == students
  {
    match (Roster.StrippedField(data, "name"), Roster.StrippedField(data, "repo"))
    case (Some(name), Some(repo)) =>
      if name == [] || repo == [] then (Roster.BadRequest(Roster.MissingNameOrRepo), students)
      else if Roster.NameTaken(students, name) then (Roster.Conflict(Roster.NameExists), students)
      else if Roster.RepoTaken(students, repo) then (Roster.Conflict(Roster.RepoExists), students)
      else (Roster.Ok, students + [NewRecord(name, repo)])
    case _ => (Roster.ServerError, students)
  }

  /** The root add accepts exactly when both stripped fields are non-empty and neither is taken;
      it then appends `{"name": name, "repo": repo}` and nothing else. */
  lemma AddAccepts(data: Record, students: seq<Record>, name: string, repo: string)
    requires Roster.StrippedField(data, "name") == Some(name) && Roster.StrippedField(data, "repo") == Some(repo)
    ensures (Add(data, students).0 == Roster.Ok) == (name != [] && repo != [] && !Roster.NameTaken(students, name) && !Roster.RepoTaken(students, repo))
    ensures Add(data, students).0 == Roster.Ok ==> Add(data, students).1 == students + [NewRecord(name, repo)]
  {
  }

  /** The root add is refused with 400 for an empty field, else with 409 for a taken name, else
      with 409 for a taken repository. */
  lemma AddRefusals(data: Record, students: seq<Record>, name: string, repo: string)
    requires Roster.StrippedField(data, "name") == Some(name) && Roster.StrippedField(data, "repo") == Some(repo)
    ensures name == [] || repo == [] ==> Add(data, students).0 == Roster.BadRequest(Roster.MissingNameOrRepo)
    ensures name != [] && repo != [] && Roster.NameTaken(students, name) ==> Add(data, students).0 == Roster.Conflict(Roster.NameExists)
    ensures name != [] && repo != [] && !Roster.NameTaken(students, name) && Roster.RepoTaken(students, repo) ==>
      Add(data, students).0 == Roster.Conflict(Roster.RepoExists)
  {
  }

  /** Both copies of add give the same reply ... */
  lemma AddSameReply(data: Record, students: seq<Record>)
    ensures Add(data, students).0 == Roster.Add(data, students).0
  {
    var name, repo := Roster.StrippedField(data, "name"), Roster.StrippedField(data, "repo");
    if name.Some? && repo.Some? {
      AddAccepts(data, students, name.value, repo.value);
      AddRefusals(data, students, name.value, repo.value);
      Roster.AddAccepts(data, students, name.value, repo.value);
      Roster.AddRefusals(data, students, name.value, repo.value);
    }
  }

  /** ... and, on success, append records that differ only in the scores. */
  lemma AddSameRecord(data: Record, students: seq<Record>)
    requires Add(data, students).0 == Roster.Ok
    ensures Roster.Add(data, students).0 == Roster.Ok
    ensures Add(data, students).1[|students|] == Roster.Add(data, students).1[|students|] - {"scores"}
  {
    AddSameReply(data, students);
    var name, repo := Roster.StrippedField(data, "name").value, Roster.StrippedField(data, "repo").value;
    AddAccepts(data, students, name, repo);
    Roster.AddAccepts(data, students, name, repo);
    StripScores(name, repo, Roster.RequestScores(data));
  }

  /** The new copy's record without its scores is the root copy's. */
  lemma StripScores(name: string, repo: string, scores: seq<int>)
    ensures Roster.NewRecord(name, repo, scores) - {"scores"} == NewRecord(name, repo)
  {
    var full := Roster.NewRecord(name, repo, scores);
    assert (full - {"scores"}).Keys == {"name", "repo"};
  }

  /** The record the root update writes at the target: the scores and every other field stay. */
  function Updated(target: Record, name: string, repo: string): Record {
    target["name" := JStr(name)]["repo" := JStr(repo)]
  }

  /** The root `api_students_update`. */
  function Update(data: Record, students: seq<Record>): (r: (Roster.Reply, seq<Record>))
    ensures r.0 != Roster.Ok ==> r.1 == students
    ensures |r.1| == |students|
  {
    match (Roster.StrippedField(data, "name"), Roster.StrippedField(data, "repo"))
    case (Some(name), Some(repo)) =>
      (match Roster.OldName(data, name)
       case None => (Roster.ServerError, students)
       case Some(oldName) =>
         if name == [] || repo == [] || oldName == [] then (Roster.BadRequest(Roster.MissingNameOrRepo), students)
         else match Roster.FirstNamed(students, oldName)
           case None => (Roster.NotFound("not found"), students)
           case Some(t) =>
             if name != oldName && Roster.NameTaken(students, name) then (Roster.Conflict(Roster.NameExists), students)
             else if Roster.RepoHeldByOther(students, repo, t) then (Roster.Conflict(Roster.RepoExists), students)
             else (Roster.Ok, students[t := Updated(students[t], name, repo)]))
    case _ => (Roster.ServerError, students)
  }

  /** The root update succeeds exactly when the fields are non-empty, a record has the old name,
      the new name (if different) is not held, and no other record holds the repository; then only
      the first record with the old name changes, in its name and repository. */
  lemma UpdateAccepts(data: Record, students: seq<Record>, name: string, repo: string, oldName: string)
    requires Roster.StrippedField(data, "name") == Some(name) && Roster.StrippedField(data, "repo") == Some(repo)
    requires Roster.OldName(data, name) == Some(oldName)
    ensures Update(data, students).0 == Roster.Ok <==>
      name != [] && repo != [] && oldName != [] && Roster.FirstNamed(students, oldName).Some?
      && !(name != oldName && Roster.NameTaken(students, name))
      && !Roster.RepoHeldByOther(students, repo, Roster.FirstNamed(students, oldName).value)
    ensures Update(data, students).0 == Roster.Ok ==>
      var t := Roster.FirstNamed(students, oldName).value;
      Update(data, students).1 == students[t := Updated(students[t], name, repo)]
  {
  }

  /** Both copies of update give the same reply, and the same roster for a request without scores. */
  lemma UpdateAgrees(data: Record, students: seq<Record>)
    ensures Update(data, students).0 == Roster.Update(data, students).0
    ensures "scores" !in data ==> Update(data, students).1 == Roster.Update(data, students).1
  {
    var name, repo := Roster.StrippedField(data, "name"), Roster.StrippedField(data, "repo");
    if name.Some? && repo.Some? && Roster.OldName(data, name.value).Some? {
      var oldName := Roster.OldName(data, name.value).value;
      UpdateAccepts(data, students, name.value, repo.value, oldName);
      Roster.UpdateAccepts(data, students, name.value, repo.value, oldName);
      Roster.UpdateRefusals(data, students, name.value, repo.value, oldName);
      if Update(data, students).0 == Roster.Ok {
        Roster.UpdateEffect(data, students, name.value, repo.value, oldName);
      }
    }
  }

  /** The root add keeps names and repositories unique. */
  lemma AddKeepsUnique(data: Record, students: seq<Record>)
    requires Roster.Unique(students)
    ensures Roster.Unique(Add(data, students).1)
  {
    var r := Add(data, students);
    if r.0 == Roster.Ok {
      var name := Roster.StrippedField(data, "name").value;
      var repo := Roster.StrippedField(data, "repo").value;
      AddAccepts(data, students, name, repo);
      Roster.AppendKeepsUnique(students, NewRecord(name, repo), name, repo);
    }
  }

  /** The root update keeps names and repositories unique. */
  lemma UpdateKeepsUnique(data: Record, students: seq<Record>)
    requires Roster.Unique(students)
    ensures Roster.Unique(Update(data, students).1)
  {
    var r := Update(data, students);
    if r.0 == Roster.Ok {
      var name := Roster.StrippedField(data, "name").value;
      var repo := Roster.StrippedField(data, "repo").value;
      var oldName := Roster.OldName(data, name).value;
      UpdateAccepts(data, students, name, repo, oldName);
      var t := Roster.FirstNamed(students, oldName).value;
      var e := Updated(students[t], name, repo);
      assert Get(e, "name", JNull) == JStr(name) && Get(e, "repo", JNull) == JStr(repo);
      Roster.UpdatedFieldsFree(students, name, repo, oldName, t);
      Roster.ReplaceKeepsUnique(students, t, e);
    }
  }
}
