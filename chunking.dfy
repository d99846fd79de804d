/**
 * Laravel's `chunk($batchSize, $callback)` over the eligibility query: pages taken by
 * offset and limit in id order, handed one by one to the callback until a page comes
 * back short or empty.
 */
module Chunking {
  import opened Tables
  import opened Exclusion

  /** `$batchSize` */
  const BatchSize: nat := 5000

  /**
   * Where the page numbered `page` (from 0) starts: `page * BatchSize`. The literal keeps
   * offsets in linear arithmetic for the verifier.
   */
  function Offset(page: nat): nat {
    page * 5000
  }

  function Min(a: int, b: int): int {
    if a < b then a else b
  }

  /** `offset(offset)->limit(size)` over the rows the query yields. */
  function Page(keys: seq<Row>, offset: nat, size: nat): (r: seq<Row>)
    ensures |r| == if offset < |keys| then Min(size, |keys| - offset) else 0
    ensures forall i :: 0 <= i < |r| ==> r[i] == keys[offset + i]
  {
    if offset >= |keys| then [] else keys[offset..Min(offset + size, |keys|)]
  }

  /** The non-empty pages from `offset` on: those the callback receives. */
  function ChunksFrom(keys: seq<Row>, offset: nat, size: nat): seq<seq<Row>>
    requires size > 0
    decreases |keys| - offset
  {
    if offset >= |keys| then [] else [Page(keys, offset, size)] + ChunksFrom(keys, offset + size, size)
  }

  function Flatten(cs: seq<seq<Row>>): seq<Row>
    decreases |cs|
  {
    if |cs| == 0 then [] else cs[0] + Flatten(cs[1..])
  }

  /**
   * The pages partition the rows: read one after another they are the rows from `offset`
   * on, in order, so every row is visited exactly once.
   */
  lemma {:induction false} ChunksPartition(keys: seq<Row>, offset: nat, size: nat)
    requires size > 0 && offset <= |keys|
    ensures Flatten(ChunksFrom(keys, offset, size)) == keys[offset..]
    decreases |keys| - offset
  {
    if offset < |keys| {
      var page, rest := Page(keys, offset, size), ChunksFrom(keys, offset + size, size);
      assert ChunksFrom(keys, offset, size) == [page] + rest;
      FlattenCons(page, rest);
      if offset + size <= |keys| {
        assert page == keys[offset..offset + size];
        calc {
          Flatten(ChunksFrom(keys, offset, size));
          page + Flatten(rest);
          { ChunksPartition(keys, offset + size, size); }
          page + keys[offset + size..];
          { SliceSplit(keys, offset, offset + size); }
          keys[offset..];
        }
      } else {
        assert rest == [];
        assert page == keys[offset..];
        assert page + Flatten(rest) == page;
      }
    } else {
      assert ChunksFrom(keys, offset, size) == [];
    }
  }

  lemma SliceSplit(s: seq<Row>, a: nat, b: nat)
    requires a <= b <= |s|
    ensures s[a..] == s[a..b] + s[b..]
  {
  }

  lemma FlattenCons(c: seq<Row>, rest: seq<seq<Row>>)
    ensures Flatten([c] + rest) == c + Flatten(rest)
  {
    assert ([c] + rest)[1..] == rest;
  }

  /** Each page the callback receives holds between one and `size` rows. */
  lemma {:induction false} ChunkSizes(keys: seq<Row>, offset: nat, size: nat)
    requires size > 0
    ensures forall c :: c in ChunksFrom(keys, offset, size) ==> 0 < |c| <= size
    decreases |keys| - offset
  {
    if offset < |keys| {
      var page, rest := Page(keys, offset, size), ChunksFrom(keys, offset + size, size);
      ChunkSizes(keys, offset + size, size);
      forall c | c in [page] + rest ensures 0 < |c| <= size {
        if c != page {
          assert c in rest;
        }
      }
    }
  }

  /**
   * Two chunks of two rows, then one: the three pages of five rows with a batch of two. With
   * nothing pending all five rows are dropped out.
   */
  lemma FiveRowsInPagesOfTwo(keys: seq<Row>)
    requires |keys| == 5
    ensures var cs := ChunksFrom(keys, 0, 2);
      |cs| == 3 && cs[0] == keys[0..2] && cs[1] == keys[2..4] && cs[2] == keys[4..5] &&
      RunDropouts(cs, [], []) == keys
  {
    NothingPendingDropsAll(keys, 0, 2);
    assert keys[0..] == keys;
    assert ChunksFrom(keys, 6, 2) == [];
    assert ChunksFrom(keys, 4, 2) == [keys[4..5]];
    assert ChunksFrom(keys, 2, 2) == [keys[2..4], keys[4..5]];
  }

  /** The rows the callback drops out, chunk after chunk. */
  function RunDropouts(cs: seq<seq<Row>>, exams: seq<Exam>, subs: seq<Submission>): seq<Row>
    decreases |cs|
  {
    if |cs| == 0 then [] else ChunkDropouts(cs[0], exams, subs) + RunDropouts(cs[1..], exams, subs)
  }

  lemma RunDropoutsCons(c: seq<Row>, rest: seq<seq<Row>>, exams: seq<Exam>, subs: seq<Submission>)
    ensures RunDropouts([c] + rest, exams, subs) == ChunkDropouts(c, exams, subs) + RunDropouts(rest, exams, subs)
  {
    assert ([c] + rest)[1..] == rest;
  }

  lemma {:induction false} NothingPendingFlattens(cs: seq<seq<Row>>)
    ensures RunDropouts(cs, [], []) == Flatten(cs)
    decreases |cs|
  {
    if |cs| > 0 {
      NothingPendingFlattens(cs[1..]);
      NothingPendingKeepsChunk(cs[0]);
    }
  }

  /** With no exams and no submissions every row of every page is dropped out, in order. */
  lemma NothingPendingDropsAll(keys: seq<Row>, offset: nat, size: nat)
    requires size > 0 && offset <= |keys|
    ensures RunDropouts(ChunksFrom(keys, offset, size), [], []) == keys[offset..]
  {
    NothingPendingFlattens(ChunksFrom(keys, offset, size));
    ChunksPartition(keys, offset, size);
  }

  lemma ConcatIncreasing(a: seq<Row>, b: seq<Row>)
    requires RowIdsIncreasing(a) && RowIdsIncreasing(b)
    requires forall x, y :: x in a && y in b ==> x.id < y.id
    ensures RowIdsIncreasing(a + b)
  {
    forall i, j | 0 <= i < j < |a + b| ensures (a + b)[i].id < (a + b)[j].id {
      if i < |a| && j >= |a| {
        assert (a + b)[i] in a && (a + b)[j] in b;
      }
    }
  }

  lemma SplitIncreasing(a: seq<Row>, b: seq<Row>)
    requires RowIdsIncreasing(a + b)
    ensures RowIdsIncreasing(a) && RowIdsIncreasing(b)
    ensures forall x, y :: x in a && y in b ==> x.id < y.id
  {
    forall i, j | 0 <= i < j < |a| ensures a[i].id < a[j].id {
      assert a[i] == (a + b)[i] && a[j] == (a + b)[j];
    }
    forall i, j | 0 <= i < j < |b| ensures b[i].id < b[j].id {
      assert b[i] == (a + b)[|a| + i] && b[j] == (a + b)[|a| + j];
    }
    forall x, y | x in a && y in b ensures x.id < y.id {
      var i :| 0 <= i < |a| && a[i] == x;
      var j :| 0 <= j < |b| && b[j] == y;
      assert (a + b)[i] == x && (a + b)[|a| + j] == y;
    }
  }

  /**
   * The dropped rows are rows of the chunks, no more of them than the chunks hold, and in
   * strictly ascending id order when the chunks are.
   */
  lemma {:induction false} RunDropoutsWithin(cs: seq<seq<Row>>, exams: seq<Exam>, subs: seq<Submission>)
    ensures |RunDropouts(cs, exams, subs)| <= |Flatten(cs)|
    ensures forall x :: x in RunDropouts(cs, exams, subs) ==> x in Flatten(cs)
    ensures RowIdsIncreasing(Flatten(cs)) ==> RowIdsIncreasing(RunDropouts(cs, exams, subs))
    decreases |cs|
  {
    if |cs| > 0 {
      RunDropoutsWithin(cs[1..], exams, subs);
      var d, rest := ChunkDropouts(cs[0], exams, subs), RunDropouts(cs[1..], exams, subs);
      ChunkDropoutsWithin(cs[0], exams, subs);
      if RowIdsIncreasing(Flatten(cs)) {
        SplitIncreasing(cs[0], Flatten(cs[1..]));
        ConcatIncreasing(d, rest);
      }
    }
  }

  /** A row is dropped out iff some chunk holds it and its student is not blocked in that chunk. */
  lemma {:induction false} RunDropoutsIff(cs: seq<seq<Row>>, exams: seq<Exam>, subs: seq<Submission>, x: Row)
    ensures x in RunDropouts(cs, exams, subs) <==>
      exists i :: 0 <= i < |cs| && x in cs[i] && !BlockedInChunk(x.studentId, cs[i], exams, subs)
    decreases |cs|
  {
    if |cs| > 0 {
      RunDropoutsIff(cs[1..], exams, subs, x);
      ChunkDropoutsIff(cs[0], exams, subs, x);
      if exists i :: 0 <= i < |cs| && x in cs[i] && !BlockedInChunk(x.studentId, cs[i], exams, subs) {
        var i :| 0 <= i < |cs| && x in cs[i] && !BlockedInChunk(x.studentId, cs[i], exams, subs);
        if i > 0 {
          assert cs[1..][i - 1] == cs[i];
        }
      }
      if exists i :: 0 <= i < |cs| - 1 && x in cs[1..][i] && !BlockedInChunk(x.studentId, cs[1..][i], exams, subs) {
        var i :| 0 <= i < |cs| - 1 && x in cs[1..][i] && !BlockedInChunk(x.studentId, cs[1..][i], exams, subs);
        assert cs[i + 1] == cs[1..][i];
      }
    }
  }
}
