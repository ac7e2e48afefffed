/**
 * The paginated copy: the cursor object, the page a `skip(n).limit(b)`
 * query returns, and the sequence of queries the safe copy's loop issues.
 */
module Pagination {
  import opened Records

  function Min(a: int, b: int): int { if a <= b then a else b }

  /** The skip the page query uses: the sentinel -1 ("not started") reads as 0, any other cursor as itself. */
  function SkipOf(cursor: int): nat
    requires cursor >= -1
  {
    if cursor == -1 then 0 else cursor
  }

  /**
   * `find({}).skip(skip).limit(limit)`: at most `limit` records, exactly the
   * ones at positions skip, skip + 1, ... of the source order; short or empty
   * when the source ends first.
   */
  function Page(source: seq<Record>, skip: nat, limit: nat): (p: seq<Record>)
    ensures |p| <= limit
    ensures |p| == if skip >= |source| then 0 else Min(limit, |source| - skip)
    ensures forall j :: 0 <= j < |p| ==> p[j] == source[skip + j]
  {
    if skip >= |source| then [] else source[skip..Min(skip + limit, |source|)]
  }

  /**
   * The skips of the page queries the loop `while (cursor < total)` issues
   * when it starts from `cursor`, each page advancing the cursor by `batch`.
   */
  function PageOffsets(cursor: int, batch: nat, total: int): seq<nat>
    requires cursor >= -1 && batch >= 1
    decreases total - cursor
  {
    if cursor >= total then [] else [SkipOf(cursor)] + PageOffsets(SkipOf(cursor) + batch, batch, total)
  }

  /** The cursor value that loop stops at: never below where it started, never below `total`. */
  function FinalCursor(cursor: int, batch: nat, total: int): (f: int)
    requires cursor >= -1 && batch >= 1
    ensures f >= cursor && f >= total
    decreases total - cursor
  {
    if cursor >= total then cursor else FinalCursor(SkipOf(cursor) + batch, batch, total)
  }

  /** The records the queries at `offsets` return, page after page. */
  function Fetched(source: seq<Record>, offsets: seq<nat>, batch: nat): seq<Record>
  {
    if offsets == [] then []
    else Page(source, offsets[0], batch) + Fetched(source, offsets[1..], batch)
  }

  lemma {:induction false} FetchedConcat(source: seq<Record>, a: seq<nat>, b: seq<nat>, batch: nat)
    ensures Fetched(source, a + b, batch) == Fetched(source, a, batch) + Fetched(source, b, batch)
  {
    if a != [] {
      assert (a + b)[1..] == a[1..] + b;
      FetchedConcat(source, a[1..], b, batch);
    } else {
      assert a + b == b;
    }
  }

  lemma {:induction false} MulAtLeast(b: nat, k: nat)
    requires k >= 1
    ensures b * k >= b
  {
    if k > 1 {
      MulAtLeast(b, k - 1);
      assert b * k == b * (k - 1) + b;
    }
  }

  lemma DivUnique(y: int, b: nat, q: int, r: int)
    requires b >= 1 && y == b * q + r && 0 <= r < b
    ensures y / b == q
  {
    var q', r' := y / b, y % b;
    assert b * (q - q') == r' - r;
    if q - q' >= 1 {
      MulAtLeast(b, q - q');
    } else if q' - q >= 1 {
      MulAtLeast(b, q' - q);
    }
  }

  /** n is ceil(x / b), written with floor division, when n - 1 batches fall short of x and n reach it. */
  lemma CeilDiv(x: int, b: nat, n: int)
    requires b >= 1 && (n - 1) * b < x <= n * b
    ensures n == (x + b - 1) / b
  {
    DivUnique(x + b - 1, b, n, x + b - 1 - n * b);
  }

  /**
   * From a started cursor `c`, the i-th query skips c + i * batch; the loop
   * stops after the first query whose window reaches `total`, at the cursor
   * one batch past that query's skip.
   */
  lemma {:induction false} OffsetsFrom(c: nat, batch: nat, total: int)
    requires batch >= 1
    ensures var offs := PageOffsets(c, batch, total);
      && (|offs| == 0 <==> c >= total)
      && (forall i :: 0 <= i < |offs| ==> offs[i] == c + i * batch)
      && FinalCursor(c, batch, total) == c + |offs| * batch
      && (c < total ==> (|offs| - 1) * batch < total - c)
    decreases total - c
  {
    if c < total {
      var offs := PageOffsets(c, batch, total);
      var rest := PageOffsets(c + batch, batch, total);
      OffsetsFrom(c + batch, batch, total);
      assert offs == [c] + rest;
      forall i | 0 <= i < |offs| ensures offs[i] == c + i * batch {
        if i > 0 {
          assert offs[i] == rest[i - 1] == c + batch + (i - 1) * batch;
        }
      }
      assert FinalCursor(c, batch, total) == c + batch + |rest| * batch;
      assert |offs| * batch == batch + |rest| * batch;
      if rest != [] {
        assert (|offs| - 1) * batch == (|rest| - 1) * batch + batch;
      }
    }
  }

  /**
   * The whole safe copy, started from the sentinel -1 with total >= 0: page i
   * skips i * batch; there is one page when total is 0 and ceil(total / batch)
   * otherwise; the loop stops with the cursor at or past `total` but less
   * than one batch beyond it (exactly one batch when total is 0). With a
   * negative total no page is fetched and the cursor stays at -1.
   */
  lemma SafeOffsets(batch: nat, total: int)
    requires batch >= 1
    ensures total < 0 ==> PageOffsets(-1, batch, total) == [] && FinalCursor(-1, batch, total) == -1
    ensures total >= 0 ==> var offs := PageOffsets(-1, batch, total);
      && |offs| == (if total == 0 then 1 else (total + batch - 1) / batch)
      && (forall i :: 0 <= i < |offs| ==> offs[i] == i * batch)
      && FinalCursor(-1, batch, total) == |offs| * batch
      && (total == 0 ==> FinalCursor(-1, batch, total) == batch)
      && (total > 0 ==> FinalCursor(-1, batch, total) < total + batch)
  {
    if total >= 0 {
      var offs := PageOffsets(-1, batch, total);
      OffsetsFrom(0, batch, total);
      if total == 0 {
        assert offs == [0];
      } else {
        assert offs == PageOffsets(0, batch, total);
        var n := |offs|;
        assert (n - 1) * batch < total <= n * batch;
        CeilDiv(total, batch, n);
        assert n * batch == (n - 1) * batch + batch;
      }
    }
  }

  /** The page a source position falls in. */
  function PageOf(p: nat, batch: nat): nat
    requires batch >= 1
  {
    p / batch
  }

  lemma PositionInPage(p: nat, batch: nat, n: nat)
    requires batch >= 1 && p < n * batch
    ensures PageOf(p, batch) < n
    ensures PageOf(p, batch) * batch <= p < PageOf(p, batch) * batch + batch
  {
    var i := PageOf(p, batch);
    assert p == batch * i + p % batch;
    if i >= n {
      if i > n {
        MulAtLeast(batch, i - n);
      }
    }
  }

  /**
   * The pages of one safe copy partition the positions 0 .. total - 1: each
   * position lies in the window [skip, skip + batch) of its page, and the
   * windows follow each other in increasing order without overlapping.
   */
  lemma PagesPartition(batch: nat, total: int)
    requires batch >= 1
    ensures var offs := PageOffsets(-1, batch, total);
      && (forall p: nat :: p < total ==>
            PageOf(p, batch) < |offs| && offs[PageOf(p, batch)] <= p < offs[PageOf(p, batch)] + batch)
      && (forall i, j :: 0 <= i < j < |offs| ==> offs[i] + batch <= offs[j])
  {
    var offs := PageOffsets(-1, batch, total);
    SafeOffsets(batch, total);
    if total > 0 {
      OffsetsFrom(0, batch, total);
      assert offs == PageOffsets(0, batch, total);
      forall p: nat | p < total
        ensures PageOf(p, batch) < |offs| && offs[PageOf(p, batch)] <= p < offs[PageOf(p, batch)] + batch
      {
        PositionInPage(p, batch, |offs|);
      }
      forall i, j | 0 <= i < j < |offs| ensures offs[i] + batch <= offs[j] {
        MulAtLeast(batch, j - i);
        assert j * batch == i * batch + (j - i) * batch;
      }
    }
  }

  lemma SliceSplit(s: seq<Record>, a: nat, b: nat, c: nat)
    requires a <= b <= c <= |s|
    ensures s[a..c] == s[a..b] + s[b..c]
  {
  }

  lemma PageWindow(source: seq<Record>, skip: nat, limit: nat)
    ensures Page(source, skip, limit) == source[Min(skip, |source|)..Min(skip + limit, |source|)]
  {
  }

  /** From a started cursor `c`, the queries fetch exactly the source positions from c up to where the loop stops. */
  lemma {:induction false} FetchedWindow(source: seq<Record>, c: nat, batch: nat, total: int)
    requires batch >= 1
    ensures Fetched(source, PageOffsets(c, batch, total), batch) ==
              source[Min(c, |source|)..Min(FinalCursor(c, batch, total), |source|)]
    decreases total - c
  {
    if c < total {
      var rest := PageOffsets(c + batch, batch, total);
      var f := FinalCursor(c, batch, total);
      FetchedWindow(source, c + batch, batch, total);
      assert PageOffsets(c, batch, total)[1..] == rest;
      PageWindow(source, c, batch);
      assert f == FinalCursor(c + batch, batch, total) >= c + batch;
      SliceSplit(source, Min(c, |source|), Min(c + batch, |source|), Min(f, |source|));
    }
  }

  /**
   * One safe copy fetches a prefix of the source, each record once and in
   * source order: the positions below the final cursor. With a negative
   * total it fetches nothing.
   */
  lemma SafeFetchesPrefix(source: seq<Record>, batch: nat, total: int)
    requires batch >= 1
    ensures total < 0 ==> Fetched(source, PageOffsets(-1, batch, total), batch) == []
    ensures total >= 0 ==>
              (Fetched(source, PageOffsets(-1, batch, total), batch) ==
               source[..Min(FinalCursor(-1, batch, total), |source|)])
  {
    if total >= 0 {
      var rest := PageOffsets(batch, batch, total);
      var f := FinalCursor(-1, batch, total);
      var offs := PageOffsets(-1, batch, total);
      FetchedWindow(source, batch, batch, total);
      assert offs == [0] + rest;
      assert offs[1..] == rest;
      assert Fetched(source, offs, batch) == Page(source, 0, batch) + Fetched(source, rest, batch);
      PageWindow(source, 0, batch);
      assert f == FinalCursor(batch, batch, total);
      SliceSplit(source, 0, Min(batch, |source|), Min(f, |source|));
    }
  }

  /**
   * When the total is at least the source size (in particular when it is the
   * source size), one safe copy fetches the whole source, each record exactly
   * once and in order.
   */
  lemma SafeFetchesSource(source: seq<Record>, batch: nat, total: int)
    requires batch >= 1 && total >= |source|
    ensures Fetched(source, PageOffsets(-1, batch, total), batch) == source
  {
    SafeFetchesPrefix(source, batch, total);
    assert Min(FinalCursor(-1, batch, total), |source|) == |source|;
  }

  /** The mutable pagination state `data`, whose one field is `lastResultSize`. */
  class Cursor {
    var lastResultSize: int

    /** A fresh cursor, holding the "not started" sentinel. */
    constructor ()
      ensures lastResultSize == -1
    {
      lastResultSize := -1;
    }
  }
}
