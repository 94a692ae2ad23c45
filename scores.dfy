/**
 * Phase scores: `clamp_score`, `init_scores` and the record-normalisation
 * loop that `load_students` runs over every loaded record before handing
 * the list out (src/xueyuanzuoye/stu_homework.py).
 */
module Scores {
  import opened Json

  /** Number of phases a student is scored on. */
  const PhaseCount := 5

  /** `clamp_score(v)`: `int(v)` limited to [0, 100]; 0 when `int` raises. */
  function ClampScore(v: Json): (r: int)
    ensures 0 <= r <= 100
    ensures PyInt(v).None? ==> r == 0
    ensures PyInt(v).Some? && 0 <= PyInt(v).value <= 100 ==> r == PyInt(v).value
    ensures PyInt(v).Some? && PyInt(v).value < 0 ==> r == 0
    ensures PyInt(v).Some? && PyInt(v).value > 100 ==> r == 100
  {
    match PyInt(v)
    case None => 0
    case Some(i) => if i < 0 then 0 else if i > 100 then 100 else i
  }

  /** `init_scores()`: five zero scores. */
  function InitScores(): (r: seq<int>)
    ensures |r| == PhaseCount && forall k :: 0 <= k < |r| ==> r[k] == 0
  {
    [0, 0, 0, 0, 0]
  }

  /** A list of Python ints as a JSON array. */
  function IntsToJson(xs: seq<int>): (r: seq<Json>)
    ensures |r| == |xs| && forall k :: 0 <= k < |xs| ==> r[k] == JInt(xs[k])
  {
    seq(|xs|, k requires 0 <= k < |xs| => JInt(xs[k]))
  }

  /** `[clamp_score(sc) for sc in xs]`. */
  function ClampAll(xs: seq<Json>): (r: seq<int>)
    ensures |r| == |xs| && forall k :: 0 <= k < |xs| ==> r[k] == ClampScore(xs[k])
  {
    seq(|xs|, k requires 0 <= k < |xs| => ClampScore(xs[k]))
  }

  /** Python's `xs == ns` for a JSON list and a list of ints. */
  predicate PyListEq(xs: seq<Json>, ns: seq<int>) {
    |xs| == |ns| && forall k :: 0 <= k < |xs| ==> PyEqInt(xs[k], ns[k])
  }

  /** A stored score that normalising leaves alone: a number equal to an integer in [0, 100]. */
  predicate IsNormalScore(e: Json) {
    PyEqInt(e, ClampScore(e))
  }

  /** The shape every dict record has after loading: a 5-element `scores` list of normal scores. */
  predicate HasNormalScores(fields: map<string, Json>) {
    && "scores" in fields
    && fields["scores"].JArr?
    && |fields["scores"].items| == PhaseCount
    && forall k :: 0 <= k < PhaseCount ==> IsNormalScore(fields["scores"].items[k])
  }

  /** What one iteration of the loop in `load_students` does to one list item. */
  function NormalizeRecord(v: Json): Json {
    match v
    case JObj(f) =>
      if "score" in f && "scores" !in f then
        JObj((f - {"score"})["scores" := JArr(IntsToJson(InitScores()))])
      else if "scores" !in f then
        JObj(f["scores" := JArr(IntsToJson(InitScores()))])
      else if !f["scores"].JArr? || |f["scores"].items| != PhaseCount then
        JObj(f["scores" := JArr(IntsToJson(InitScores()))])
      else if PyListEq(f["scores"].items, ClampAll(f["scores"].items)) then
        v
      else
        JObj(f["scores" := JArr(IntsToJson(ClampAll(f["scores"].items)))])
    case _ => v
  }

  /**
   * The normalisation loop of `load_students`: every dict record is migrated
   * in place and `mutated` records whether any record changed (the source then
   * saves the list). Non-dict items are skipped.
   */
  method NormalizeStudents(students: seq<Json>) returns (records: seq<Json>, mutated: bool)
    ensures |records| == |students|
    ensures forall i :: 0 <= i < |students| ==> records[i] == NormalizeRecord(students[i])
    ensures mutated <==> exists i :: 0 <= i < |students| && records[i] != students[i]
  {
    records := students;
    mutated := false;
    for i := 0 to |students|
      invariant |records| == |students|
      invariant forall k :: 0 <= k < i ==> records[k] == NormalizeRecord(students[k])
      invariant forall k :: i <= k < |students| ==> records[k] == students[k]
      invariant mutated <==> exists k :: 0 <= k < i && records[k] != students[k]
    {
      var s := records[i];
      if !s.JObj? {
        continue;
      }
      var f := s.fields;
      var changed := false;
      if "score" in f && "scores" !in f {
        f := f["scores" := JArr(IntsToJson(InitScores()))];
        f := f - {"score"};
        changed := true;
      } else if "scores" !in f {
        f := f["scores" := JArr(IntsToJson(InitScores()))];
        changed := true;
      } else {
        var sc := f["scores"];
        if !sc.JArr? || |sc.items| != PhaseCount {
          f := f["scores" := JArr(IntsToJson(InitScores()))];
          changed := true;
        } else {
          var normalized := ClampAll(sc.items);
          if !PyListEq(sc.items, normalized) {
            assert sc.items != IntsToJson(normalized);
            f := f["scores" := JArr(IntsToJson(normalized))];
            changed := true;
          }
        }
      }
      if changed {
        assert "scores" in s.fields ==> s.fields["scores"] != f["scores"];
        assert JObj(f) != s;
        records := records[i := JObj(f)];
        mutated := true;
      }
    }
  }

  /** After normalising, a dict record has a 5-element list of scores in [0, 100];
      keys other than `score` and `scores` keep their values; the legacy `score`
      key is gone exactly when `scores` was absent; a stored 5-element list
      becomes, position by position, a value equal to its clamped score; any
      other stored `scores` value is replaced by the initial scores; other
      items are untouched. */
  lemma NormalizeRecordShape(v: Json)
    ensures v.JObj? ==> NormalizeRecord(v).JObj? && HasNormalScores(NormalizeRecord(v).fields)
    ensures v.JObj? ==> forall k :: k != "score" && k != "scores" ==>
      (k in v.fields <==> k in NormalizeRecord(v).fields)
      && (k in v.fields ==> NormalizeRecord(v).fields[k] == v.fields[k])
    ensures v.JObj? ==> ("score" in NormalizeRecord(v).fields <==> "score" in v.fields && "scores" in v.fields)
    ensures v.JObj? && "scores" !in v.fields ==> NormalizeRecord(v).fields["scores"] == JArr(IntsToJson(InitScores()))
    ensures v.JObj? && "scores" in v.fields && !(v.fields["scores"].JArr? && |v.fields["scores"].items| == PhaseCount) ==>
      NormalizeRecord(v).fields["scores"] == JArr(IntsToJson(InitScores()))
    ensures v.JObj? && "scores" in v.fields && v.fields["scores"].JArr? && |v.fields["scores"].items| == PhaseCount ==>
      forall k :: 0 <= k < PhaseCount ==>
        PyEqInt(NormalizeRecord(v).fields["scores"].items[k], ClampScore(v.fields["scores"].items[k]))
    ensures !v.JObj? ==> NormalizeRecord(v) == v
  {
    if v.JObj? {
      var f := v.fields;
      if "scores" in f && f["scores"].JArr? && |f["scores"].items| == PhaseCount {
        var xs := f["scores"].items;
        var ns := ClampAll(xs);
        if PyListEq(xs, ns) {
          assert forall k :: 0 <= k < PhaseCount ==> PyEqInt(xs[k], ClampScore(xs[k]));
        } else {
          forall k | 0 <= k < PhaseCount
            ensures IsNormalScore(IntsToJson(ns)[k]) && PyEqInt(IntsToJson(ns)[k], ClampScore(xs[k]))
          {
            assert IntsToJson(ns)[k] == JInt(ns[k]);
          }
        }
      }
    }
  }

  /** Loading is idempotent: normalising a normalised record changes nothing,
      so a second load reports `mutated == false`. */
  lemma NormalizeRecordIdempotent(v: Json)
    ensures NormalizeRecord(NormalizeRecord(v)) == NormalizeRecord(v)
  {
    NormalizeRecordShape(v);
    var w := NormalizeRecord(v);
    if w.JObj? {
      var xs := w.fields["scores"].items;
      forall k | 0 <= k < PhaseCount ensures PyEqInt(xs[k], ClampAll(xs)[k]) {
        assert IsNormalScore(xs[k]);
      }
    }
  }

  /** Running the loop over its own output reports no mutation. */
  method LoadTwice(students: seq<Json>) returns (first: seq<Json>, second: seq<Json>, mutatedAgain: bool)
    ensures second == first && !mutatedAgain
    ensures forall i :: 0 <= i < |first| && first[i].JObj? ==> HasNormalScores(first[i].fields)
  {
    var m;
    first, m := NormalizeStudents(students);
    forall i | 0 <= i < |first| ensures NormalizeRecord(first[i]) == first[i] && (first[i].JObj? ==> HasNormalScores(first[i].fields)) {
      NormalizeRecordIdempotent(students[i]);
      NormalizeRecordShape(students[i]);
      if first[i].JObj? {
        assert students[i].JObj?;
      }
    }
    second, mutatedAgain := NormalizeStudents(first);
    assert |second| == |first|;
    assert forall i :: 0 <= i < |first| ==> second[i] == first[i];
  }
}
