/**
 * `record_score_change` of src/xueyuanzuoye/stu_homework.py: append a score
 * change to the student's history and keep only the latest 100 changes.
 * The history file is the map passed in and returned; the timestamp
 * (`iso_now()`) is a parameter.
 */
module ScoreHistory {
  import opened Json

  /** Changes kept per student. */
  const HistoryLimit := 100

  datatype ScoreEvent = ScoreEvent(timestamp: string, phase: int, oldScore: Json, newScore: int)

  type History = map<string, seq<ScoreEvent>>

  function Min(a: int, b: int): int { if a <= b then a else b }

  /** The student's changes so far (`[]` when they have none yet). */
  function ChangesOf(history: History, name: string): seq<ScoreEvent> {
    if name in history then history[name] else []
  }

  /** Every student's history is within the limit. */
  predicate Bounded(history: History) {
    forall name :: name in history ==> |history[name]| <= HistoryLimit
  }

  /** `record_score_change(name, phase, old_score, new_score)` at time `now`. */
  method RecordScoreChange(history: History, name: string, phase: int, oldScore: Json, newScore: int, now: string)
    returns (updated: History)
    ensures updated.Keys == history.Keys + {name}
    ensures forall other :: other in history && other != name ==> updated[other] == history[other]
    ensures var before := ChangesOf(history, name);
      var after := updated[name];
      && |after| == Min(|before| + 1, HistoryLimit)
      && after[|after| - 1] == ScoreEvent(now, phase, oldScore, newScore)
      && after == (before + [ScoreEvent(now, phase, oldScore, newScore)])[|before| + 1 - |after|..]
    ensures Bounded(history) ==> Bounded(updated)
  {
    var h := history;
    if name !in h {
      h := h[name := []];
    }
    h := h[name := h[name] + [ScoreEvent(now, phase, oldScore, newScore)]];
    if |h[name]| > HistoryLimit {
      h := h[name := h[name][|h[name]| - HistoryLimit..]];
    }
    updated := h;
  }
}
