/** What a monitor has written to its analysis port, as the sequence of items in the
    order written. The two lemmas are the bookkeeping of a monitor's publishing loop:
    the items written so far followed by those still to come make up the whole. */
module AnalysisPort {

  /** Nothing more to come: what was written is the whole. */
  lemma AppendNothing<T>(done: seq<T>, rest: seq<T>, whole: seq<T>)
    requires done + rest == whole && rest == []
    ensures done == whole
  {
  }

  /** Writing the next item x moves it from the items to come to those written. */
  lemma AppendNext<T>(done: seq<T>, x: T, later: seq<T>, rest: seq<T>, whole: seq<T>)
    requires done + rest == whole && rest == [x] + later
    ensures (done + [x]) + later == whole
  {
  }
}
