/** Timed annotations, the decoders' only output: the host's
    `put(ss, es, out_ann, [category, [text]])` as a value. */
module Spans {

  /** One emitted annotation covering samples [start, end). */
  datatype Span<C> = Span(start: int, end: int, category: C, text: string)

  /** The spans whose category lies in `row`, in emission order. */
  function Select<C(==)>(spans: seq<Span<C>>, row: set<C>): (r: seq<Span<C>>)
    ensures |r| <= |spans|
    ensures forall i :: 0 <= i < |r| ==> r[i] in spans && r[i].category in row
  {
    if |spans| == 0 then []
    else
      var last := spans[|spans| - 1];
      Select(spans[..|spans| - 1], row) + (if last.category in row then [last] else [])
  }

  /** Selecting from a concatenation selects from each part. */
  lemma {:induction false} SelectAppend<C>(a: seq<Span<C>>, b: seq<Span<C>>, row: set<C>)
    ensures Select(a + b, row) == Select(a, row) + Select(b, row)
  {
    if |b| == 0 {
      assert a + b == a;
    } else {
      SelectAppend(a, b[..|b| - 1], row);
      assert (a + b)[..|a + b| - 1] == a + b[..|b| - 1];
    }
  }

  /** Selecting from a single span. */
  lemma SelectOne<C>(s: Span<C>, row: set<C>)
    ensures Select([s], row) == if s.category in row then [s] else []
  {
    assert [s][..0] == [];
  }

  /** Selecting a row that holds every span's category keeps them all. */
  lemma {:induction false} SelectAll<C>(x: seq<Span<C>>, row: set<C>)
    requires forall i :: 0 <= i < |x| ==> x[i].category in row
    ensures Select(x, row) == x
    decreases |x|
  {
    if |x| > 0 {
      SelectAll(x[..|x| - 1], row);
      assert x[..|x| - 1] + [x[|x| - 1]] == x;
    }
  }

  /** Selecting a row that holds no span's category keeps none. */
  lemma {:induction false} SelectNone<C>(x: seq<Span<C>>, row: set<C>)
    requires forall i :: 0 <= i < |x| ==> x[i].category !in row
    ensures Select(x, row) == []
    decreases |x|
  {
    if |x| > 0 {
      SelectNone(x[..|x| - 1], row);
    }
  }

  /** Spans of one row followed by spans of another, disjoint row: each row
      selects back exactly its own part. */
  lemma SelectSplit<C>(a: seq<Span<C>>, b: seq<Span<C>>, row: set<C>, other: set<C>)
    requires forall i :: 0 <= i < |a| ==> a[i].category in row && a[i].category !in other
    requires forall i :: 0 <= i < |b| ==> b[i].category in other && b[i].category !in row
    ensures Select(a + b, row) == a
    ensures Select(a + b, other) == b
  {
    SelectAppend(a, b, row);
    SelectAppend(a, b, other);
    SelectAll(a, row);
    SelectNone(b, row);
    SelectNone(a, other);
    SelectAll(b, other);
    assert a + [] == a && [] + b == b;
  }

  /** Every span is well formed (start <= end) and each one ends no later
      than the next one starts: the spans follow one another without
      overlapping. */
  predicate NonOverlapping<C>(spans: seq<Span<C>>) {
    && (forall i :: 0 <= i < |spans| ==> spans[i].start <= spans[i].end)
    && (forall i :: 0 <= i < |spans| - 1 ==> spans[i].end <= spans[i + 1].start)
  }

  /** Each span starts exactly where the previous one ended: no gap and no
      overlap. */
  predicate Contiguous<C>(spans: seq<Span<C>>) {
    forall i :: 0 <= i < |spans| - 1 ==> spans[i].end == spans[i + 1].start
  }

  /** Appending a well-formed span that starts no earlier than the last end
      keeps a sequence of spans non-overlapping. */
  lemma NonOverlappingSnoc<C>(spans: seq<Span<C>>, s: Span<C>)
    requires NonOverlapping(spans)
    requires s.start <= s.end
    requires |spans| > 0 ==> spans[|spans| - 1].end <= s.start
    ensures NonOverlapping(spans + [s])
  {
  }

  /** Appending a span that starts exactly at the last end keeps a sequence
      of spans contiguous. */
  lemma ContiguousSnoc<C>(spans: seq<Span<C>>, s: Span<C>)
    requires Contiguous(spans)
    requires |spans| > 0 ==> spans[|spans| - 1].end == s.start
    ensures Contiguous(spans + [s])
  {
  }

  /** The spans of one row, as a chain from boundary `from` to boundary `to`:
      each is well formed, each starts where the previous one ended, the
      first starts at `from` and the last ends at `to` (no span: from == to). */
  predicate Chain<C>(spans: seq<Span<C>>, from: int, to: int) {
    && Contiguous(spans)
    && (forall i :: 0 <= i < |spans| ==> spans[i].start <= spans[i].end)
    && (if |spans| == 0 then from == to
        else spans[0].start == from && spans[|spans| - 1].end == to)
  }

  /** A chain grows by a well-formed span starting at its end. */
  lemma ChainSnoc<C>(spans: seq<Span<C>>, from: int, s: Span<C>)
    requires Chain(spans, from, s.start) && s.start <= s.end
    ensures Chain(spans + [s], from, s.end)
  {
  }

  /** A chain never overlaps itself. */
  lemma ChainNonOverlapping<C>(spans: seq<Span<C>>, from: int, to: int)
    requires Chain(spans, from, to)
    ensures NonOverlapping(spans) && from <= to
  {
    if |spans| > 0 {
      ChainOrdered(spans, from, to);
    }
  }

  /** The ends of a non-empty chain lie in order. */
  lemma {:induction false} ChainOrdered<C>(spans: seq<Span<C>>, from: int, to: int)
    requires Chain(spans, from, to) && |spans| > 0
    ensures from <= to
  {
    if |spans| > 1 {
      var init := spans[..|spans| - 1];
      assert Chain(init, from, init[|init| - 1].end);
      ChainOrdered(init, from, init[|init| - 1].end);
    }
  }
}
