/** A row that is put and taken in turn. */
module Alternation {

  datatype Mark = Put | Taken

  ghost predicate Turn(log: seq<Mark>, j: nat)
    requires j < |log|
  {
    log[j] == if j == 0 || log[j - 1].Taken? then Put else Taken
  }

  /** A put first, and then always the other one. */
  ghost predicate Alternates(log: seq<Mark>) {
    forall j :: 0 <= j < |log| ==> Turn(log, j)
  }

  predicate EndsPut(log: seq<Mark>) { log != [] && log[|log| - 1].Put? }

  /** A log alternates exactly as long as every mark takes its turn. */
  lemma OneMore(log: seq<Mark>, x: Mark)
    ensures Alternates(log + [x]) <==> Alternates(log) && x.Put? != EndsPut(log)
    ensures EndsPut(log + [x]) == x.Put?
  {
    var more := log + [x];
    forall j | 0 <= j < |log| ensures Turn(more, j) == Turn(log, j) {
      assert more[j] == log[j] && (0 < j ==> more[j - 1] == log[j - 1]);
    }
    assert more[|log|] == x && (log != [] ==> more[|log| - 1] == log[|log| - 1]);
    assert Turn(more, |log|) <==> x.Put? != EndsPut(log);
  }
}
