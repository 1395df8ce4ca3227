/**
 * The chunked enumeration at the heart of `getLibrary`. The fetch result is
 * walked in index order; each index first faces the `maxItems` guard, then
 * its item is appended to the current chunk and, once its file path has been
 * resolved, the flush rules run in a fixed order: the last item first, then
 * the item count, then the elapsed time. Every flush is one call of the
 * caller's completion with `(chunk, chunkNum, isLast)`.
 *
 * Resolution is taken to complete synchronously and in index order, and two
 * oracles stand for what the loop cannot see: `resolves(i)` says whether the
 * resolution of index `i` calls its completion at all (when it does not, the
 * item stays in the chunk but none of the flush rules runs for it), and
 * `elapsed(i)` whether, at the flush check of index `i`, at least
 * `chunkTimeSec` seconds have passed since the chunk was started.
 */
module ChunkedEnumeration {

  /** One call of the completion: the chunk, its number, and whether it is the last. */
  datatype Call<T> = Call(chunk: seq<T>, chunkNum: nat, isLast: bool)

  /**
   * The options the loop reads. `chunkTimed` stands for `chunkTimeSec > 0`;
   * `maxItems` and `itemsInChunk` keep the source's `Int`, where zero or less
   * switches the rule off.
   */
  datatype ChunkOptions = ChunkOptions(maxItems: int, itemsInChunk: int, chunkTimed: bool)

  /**
   * Two of the loop's three variables (`chunk`, `chunkNum`) and the calls made
   * so far; the third, `chunkStartTime`, is the `elapsed` oracle.
   */
  datatype Progress<T> = Progress(chunk: seq<T>, chunkNum: nat, calls: seq<Call<T>>)

  /** The guard `maxItems > 0 && index + 1 > maxItems`. */
  predicate Truncated(opts: ChunkOptions, index: nat)
  {
    opts.maxItems > 0 && index + 1 > opts.maxItems
  }

  /** The count or time flush rule, checked with the chunk's size after the append. */
  predicate FlushDue(opts: ChunkOptions, chunkSize: nat, timeUp: bool)
  {
    (opts.itemsInChunk > 0 && chunkSize == opts.itemsInChunk) || (opts.chunkTimed && timeUp)
  }

  /**
   * One run of the enumeration closure for `index`. The truncation branch
   * only returns from the closure, without setting `stop`, so it runs again
   * for every later index.
   */
  function Visit<T>(p: Progress<T>, items: seq<T>, index: nat, opts: ChunkOptions,
                    resolves: nat -> bool, elapsed: nat -> bool): Progress<T>
    requires index < |items|
  {
    if Truncated(opts, index) then
      p.(calls := p.calls + [Call(p.chunk, p.chunkNum, true)])
    else
      var chunk := p.chunk + [items[index]];
      if !resolves(index) then
        p.(chunk := chunk)
      else if index == |items| - 1 then
        Progress(chunk, p.chunkNum, p.calls + [Call(chunk, p.chunkNum, true)])
      else if FlushDue(opts, |chunk|, elapsed(index)) then
        Progress([], p.chunkNum + 1, p.calls + [Call(chunk, p.chunkNum, false)])
      else
        Progress(chunk, p.chunkNum, p.calls)
  }

  /** The progress after the closure has run for indices `0` to `i - 1`. */
  function Run<T>(items: seq<T>, opts: ChunkOptions, resolves: nat -> bool, elapsed: nat -> bool, i: nat): Progress<T>
    requires i <= |items|
  {
    if i == 0 then Progress([], 0, [])
    else Visit(Run(items, opts, resolves, elapsed, i - 1), items, i - 1, opts, resolves, elapsed)
  }

  /** Every completion call of one `getLibrary` enumeration, in order. */
  function Calls<T>(items: seq<T>, opts: ChunkOptions, resolves: nat -> bool, elapsed: nat -> bool): seq<Call<T>>
  {
    Run(items, opts, resolves, elapsed, |items|).calls
  }

  /**
   * The enumeration as the source runs it: a loop over the fetch result that
   * updates `chunk` and `chunkNum` in place and records each completion call.
   */
  method EnumerateChunks<T>(fetchResult: seq<T>, opts: ChunkOptions, resolves: nat -> bool, elapsed: nat -> bool)
    returns (calls: seq<Call<T>>)
    ensures calls == Calls(fetchResult, opts, resolves, elapsed)
  {
    var chunk: seq<T> := [];
    var chunkNum: nat := 0;
    calls := [];
    var index := 0;
    while index < |fetchResult|
      invariant 0 <= index <= |fetchResult|
      invariant Progress(chunk, chunkNum, calls) == Run(fetchResult, opts, resolves, elapsed, index)
    {
      if opts.maxItems > 0 && index + 1 > opts.maxItems {
        calls := calls + [Call(chunk, chunkNum, true)];
      } else {
        chunk := chunk + [fetchResult[index]];
        if resolves(index) {
          if index == |fetchResult| - 1 {
            calls := calls + [Call(chunk, chunkNum, true)];
          } else if (opts.itemsInChunk > 0 && |chunk| == opts.itemsInChunk) || (opts.chunkTimed && elapsed(index)) {
            calls := calls + [Call(chunk, chunkNum, false)];
            chunkNum := chunkNum + 1;
            chunk := [];
          }
        }
      }
      index := index + 1;
    }
  }

  // ---------------------------------------------------------------------------
  // Vocabulary for the properties

  /** The items of a series of calls, chunk after chunk. */
  function Flatten<T>(calls: seq<Call<T>>): seq<T>
  {
    if calls == [] then [] else Flatten(calls[..|calls| - 1]) + calls[|calls| - 1].chunk
  }

  /** How many items the enumeration can emit: all of them, or the first `maxItems`. */
  function Limit(n: nat, opts: ChunkOptions): (l: nat)
    ensures l <= n
    ensures l < n <==> opts.maxItems > 0 && n > opts.maxItems
  {
    if opts.maxItems > 0 && n > opts.maxItems then opts.maxItems else n
  }

  /**
   * How many final calls the enumeration has made after `i` of `n` indices:
   * one per truncated index, or one for the last item if its resolution
   * calls back.
   */
  function FinalsAfter(n: nat, opts: ChunkOptions, resolves: nat -> bool, i: nat): nat
  {
    var l := Limit(n, opts);
    if l < n then (if i > l then i - l else 0)
    else if i == n && n > 0 && resolves(n - 1) then 1 else 0
  }

  /** The total number of final calls of an enumeration of `n` items. */
  function FinalCount(n: nat, opts: ChunkOptions, resolves: nat -> bool): nat
  {
    FinalsAfter(n, opts, resolves, n)
  }

  /** The first `k` of `calls` are the non-final flushes, numbered from 0 and never empty. */
  ghost predicate NumberedFlushes<T>(calls: seq<Call<T>>, k: nat)
    requires k <= |calls|
  {
    forall j :: 0 <= j < k ==> calls[j].chunkNum == j && !calls[j].isLast && calls[j].chunk != []
  }

  /** The calls from `k` on all repeat the final call `last`. */
  ghost predicate RepeatedFinal<T>(calls: seq<Call<T>>, k: nat, last: Call<T>)
    requires k <= |calls|
  {
    forall j :: k <= j < |calls| ==> calls[j] == last
  }

  /** The invariant of the enumeration after `i` indices. */
  ghost predicate Shaped<T>(items: seq<T>, opts: ChunkOptions, resolves: nat -> bool, i: nat, p: Progress<T>)
    requires i <= |items|
  {
    var k := p.chunkNum;
    var e := if i < Limit(|items|, opts) then i else Limit(|items|, opts);
    k <= |p.calls| &&
    |p.calls| - k == FinalsAfter(|items|, opts, resolves, i) &&
    NumberedFlushes(p.calls, k) &&
    RepeatedFinal(p.calls, k, Call(p.chunk, k, true)) &&
    Flatten(p.calls[..k]) + p.chunk == items[..e] &&
    (opts.itemsInChunk <= 0 && !opts.chunkTimed ==> k == 0)
  }

  function Min(a: nat, b: nat): nat { if a < b then a else b }

  /** Every index before `i` has its resolution call back. */
  ghost predicate ResolvedBefore(resolves: nat -> bool, i: nat)
  {
    forall j :: 0 <= j < i ==> resolves(j)
  }

  /** The size invariant when a count threshold `itemsInChunk > 0` is set. */
  ghost predicate Sized<T>(items: seq<T>, opts: ChunkOptions, i: nat, p: Progress<T>)
    requires p.chunkNum <= |p.calls|
  {
    var size := opts.itemsInChunk;
    (size > 0 ==> forall j :: 0 <= j < p.chunkNum ==> |p.calls[j].chunk| <= size) &&
    (size > 0 && !opts.chunkTimed ==> forall j :: 0 <= j < p.chunkNum ==> |p.calls[j].chunk| == size) &&
    (size > 0 ==> |p.chunk| <= size && (|p.chunk| == size ==> i == |items| == Limit(|items|, opts)))
  }

  // ---------------------------------------------------------------------------
  // Proofs

  lemma FlattenSnoc<T>(calls: seq<Call<T>>, c: Call<T>)
    ensures Flatten(calls + [c]) == Flatten(calls) + c.chunk
  {
    assert (calls + [c])[..|calls|] == calls;
  }

  lemma FlattenLengths<T>(calls: seq<Call<T>>, size: nat)
    requires forall j :: 0 <= j < |calls| ==> |calls[j].chunk| == size
    ensures |Flatten(calls)| == |calls| * size
  {
    if calls != [] {
      var init := calls[..|calls| - 1];
      FlattenLengths(init, size);
      assert |Flatten(calls)| == |init| * size + size;
      MulSucc(|init|, size);
    }
  }

  /** The closure keeps the invariant. */
  lemma VisitShaped<T>(items: seq<T>, opts: ChunkOptions, resolves: nat -> bool, elapsed: nat -> bool, i: nat, p: Progress<T>)
    requires i < |items| && Shaped(items, opts, resolves, i, p)
    ensures Shaped(items, opts, resolves, i + 1, Visit(p, items, i, opts, resolves, elapsed))
  {
    var k := p.chunkNum;
    if Truncated(opts, i) {
      var q := Visit(p, items, i, opts, resolves, elapsed);
      assert q.calls[..k] == p.calls[..k];
    } else {
      assert i < Limit(|items|, opts);
      assert p.calls[..k] == p.calls;
      var chunk := p.chunk + [items[i]];
      assert items[..i + 1] == items[..i] + [items[i]];
      if resolves(i) && i != |items| - 1 && FlushDue(opts, |chunk|, elapsed(i)) {
        FlushShaped(items, opts, resolves, elapsed, i, p);
      } else {
        KeepShaped(items, opts, resolves, elapsed, i, p);
      }
    }
  }

  /** A visit that appends the item and leaves the chunk number alone keeps the invariant. */
  lemma KeepShaped<T>(items: seq<T>, opts: ChunkOptions, resolves: nat -> bool, elapsed: nat -> bool, i: nat, p: Progress<T>)
    requires i < |items| && Shaped(items, opts, resolves, i, p)
    requires !Truncated(opts, i) && i < Limit(|items|, opts)
    requires !(resolves(i) && i != |items| - 1 && FlushDue(opts, |p.chunk| + 1, elapsed(i)))
    requires items[..i + 1] == items[..i] + [items[i]]
    ensures Shaped(items, opts, resolves, i + 1, Visit(p, items, i, opts, resolves, elapsed))
  {
    var q := Visit(p, items, i, opts, resolves, elapsed);
    var k := p.chunkNum;
    assert |p.calls| == k && p.calls[..k] == p.calls;
    assert q.chunk == p.chunk + [items[i]] && q.chunkNum == k;
    assert q.calls[..k] == p.calls;
  }

  /** A count or time flush keeps the invariant. */
  lemma FlushShaped<T>(items: seq<T>, opts: ChunkOptions, resolves: nat -> bool, elapsed: nat -> bool, i: nat, p: Progress<T>)
    requires i < |items| && Shaped(items, opts, resolves, i, p)
    requires !Truncated(opts, i) && i < Limit(|items|, opts)
    requires resolves(i) && i != |items| - 1 && FlushDue(opts, |p.chunk| + 1, elapsed(i))
    requires items[..i + 1] == items[..i] + [items[i]]
    ensures Shaped(items, opts, resolves, i + 1, Visit(p, items, i, opts, resolves, elapsed))
  {
    var q := Visit(p, items, i, opts, resolves, elapsed);
    var k := p.chunkNum;
    var chunk := p.chunk + [items[i]];
    assert |p.calls| == k && p.calls[..k] == p.calls;
    assert q == Progress([], k + 1, p.calls + [Call(chunk, k, false)]);
    assert q.calls[..k + 1] == q.calls;
    FlattenSnoc(p.calls, Call(chunk, k, false));
  }

  lemma VisitSized<T>(items: seq<T>, opts: ChunkOptions, resolves: nat -> bool, elapsed: nat -> bool, i: nat, p: Progress<T>)
    requires i < |items| && (resolves(i) || Truncated(opts, i))
    requires Shaped(items, opts, resolves, i, p) && Sized(items, opts, i, p)
    ensures Visit(p, items, i, opts, resolves, elapsed).chunkNum <= |Visit(p, items, i, opts, resolves, elapsed).calls|
    ensures Sized(items, opts, i + 1, Visit(p, items, i, opts, resolves, elapsed))
  {
    VisitShaped(items, opts, resolves, elapsed, i, p);
    var q := Visit(p, items, i, opts, resolves, elapsed);
    var k := p.chunkNum;
    if !Truncated(opts, i) {
      assert |p.calls| == k;
      var chunk := p.chunk + [items[i]];
      if i != |items| - 1 && FlushDue(opts, |chunk|, elapsed(i)) {
        assert q.calls[k] == Call(chunk, k, false);
      }
    }
  }

  lemma {:induction false} RunShaped<T>(items: seq<T>, opts: ChunkOptions, resolves: nat -> bool, elapsed: nat -> bool, i: nat)
    requires i <= |items|
    ensures Shaped(items, opts, resolves, i, Run(items, opts, resolves, elapsed, i))
  {
    if i > 0 {
      var p := Run(items, opts, resolves, elapsed, i - 1);
      assert Run(items, opts, resolves, elapsed, i) == Visit(p, items, i - 1, opts, resolves, elapsed);
      RunShaped(items, opts, resolves, elapsed, i - 1);
      VisitShaped(items, opts, resolves, elapsed, i - 1, p);
    }
  }

  lemma {:induction false} RunSized<T>(items: seq<T>, opts: ChunkOptions, resolves: nat -> bool, elapsed: nat -> bool, i: nat)
    requires i <= |items|
    requires ResolvedBefore(resolves, Min(i, Limit(|items|, opts)))
    ensures Run(items, opts, resolves, elapsed, i).chunkNum <= |Run(items, opts, resolves, elapsed, i).calls|
    ensures Sized(items, opts, i, Run(items, opts, resolves, elapsed, i))
  {
    if i > 0 {
      var p := Run(items, opts, resolves, elapsed, i - 1);
      assert Run(items, opts, resolves, elapsed, i) == Visit(p, items, i - 1, opts, resolves, elapsed);
      assert resolves(i - 1) || Truncated(opts, i - 1) by {
        if !Truncated(opts, i - 1) {
          assert i - 1 < Min(i, Limit(|items|, opts));
        }
      }
      assert ResolvedBefore(resolves, Min(i - 1, Limit(|items|, opts)));
      RunShaped(items, opts, resolves, elapsed, i - 1);
      RunSized(items, opts, resolves, elapsed, i - 1);
      VisitSized(items, opts, resolves, elapsed, i - 1, p);
    }
  }

  // ---------------------------------------------------------------------------
  // Properties of a whole enumeration

  /**
   * The shape of every enumeration. With `f` the number of final calls (one
   * per truncated index, or one for the last item when its resolution calls
   * back, none for an empty fetch result), the calls before the last `f` are non-final flushes numbered
   * 0, 1, 2, ..., none of them empty; the last `f` calls are the same final
   * call, numbered with the count of flushes before it; and the chunks read in
   * order give exactly the first `Limit` items of the fetch result.
   */
  lemma CallsShape<T>(items: seq<T>, opts: ChunkOptions, resolves: nat -> bool, elapsed: nat -> bool)
    ensures var calls, f := Calls(items, opts, resolves, elapsed), FinalCount(|items|, opts, resolves);
      f <= |calls| &&
      (forall j :: 0 <= j < |calls| - f ==> calls[j].chunkNum == j && !calls[j].isLast && calls[j].chunk != []) &&
      (forall j :: |calls| - f <= j < |calls| ==>
         calls[j] == calls[|calls| - 1] && calls[j].isLast && calls[j].chunkNum == |calls| - f) &&
      (f > 0 ==> Flatten(calls[..|calls| - f]) + calls[|calls| - 1].chunk == items[..Limit(|items|, opts)])
  {
    RunShaped(items, opts, resolves, elapsed, |items|);
  }

  /** An empty fetch result runs the closure for no index, so the completion is never called. */
  lemma EmptyFetchNoCalls<T>(items: seq<T>, opts: ChunkOptions, resolves: nat -> bool, elapsed: nat -> bool)
    requires items == []
    ensures Calls(items, opts, resolves, elapsed) == []
  {
  }

  /**
   * Without truncation, the chunks read in order are exactly the fetch
   * result, with no item lost or repeated, and only the very last call is
   * marked final. Only the last item's resolution has to call back.
   */
  lemma OrderAndCompleteness<T>(items: seq<T>, opts: ChunkOptions, resolves: nat -> bool, elapsed: nat -> bool)
    requires opts.maxItems <= 0 || |items| <= opts.maxItems
    requires items != [] && resolves(|items| - 1)
    ensures var calls := Calls(items, opts, resolves, elapsed);
      calls != [] && Flatten(calls) == items &&
      calls[|calls| - 1].isLast && forall j :: 0 <= j < |calls| - 1 ==> !calls[j].isLast
  {
    var calls := Calls(items, opts, resolves, elapsed);
    CallsShape(items, opts, resolves, elapsed);
    assert FinalCount(|items|, opts, resolves) == 1;
    assert calls == calls[..|calls| - 1] + [calls[|calls| - 1]];
    FlattenSnoc(calls[..|calls| - 1], calls[|calls| - 1]);
    assert items[..|items|] == items;
  }

  /**
   * Chunk numbers run 0, 1, 2, ... over the non-final calls; every final call
   * carries the last number assigned, not incremented.
   */
  lemma ChunkNumbering<T>(items: seq<T>, opts: ChunkOptions, resolves: nat -> bool, elapsed: nat -> bool)
    ensures var calls := Calls(items, opts, resolves, elapsed);
      forall j :: 0 <= j < |calls| ==>
        calls[j].chunkNum == if calls[j].isLast then |calls| - FinalCount(|items|, opts, resolves) else j
    ensures var calls := Calls(items, opts, resolves, elapsed);
      forall j :: 0 < j < |calls| ==>
        calls[j].chunkNum == calls[j - 1].chunkNum + (if calls[j - 1].isLast then 0 else 1)
  {
    CallsShape(items, opts, resolves, elapsed);
  }

  lemma MulSucc(x: nat, y: nat)
    ensures x * y + y == (x + 1) * y
  {
  }

  /**
   * With a count threshold `k > 0`, no time rule and no truncation, every
   * non-final chunk has exactly `k` items and the final one between 1 and `k`
   * (the last-item rule comes first), so `n` items make the least number
   * of calls `c` with `n <= c * k`. This needs every resolution to call back.
   */
  lemma CountChunkSizes<T>(items: seq<T>, opts: ChunkOptions, resolves: nat -> bool, elapsed: nat -> bool)
    requires opts.itemsInChunk > 0 && !opts.chunkTimed
    requires opts.maxItems <= 0 || |items| <= opts.maxItems
    requires items != []
    requires forall j :: 0 <= j < |items| ==> resolves(j)
    ensures var calls, k := Calls(items, opts, resolves, elapsed), opts.itemsInChunk;
      (|calls| - 1) * k < |items| <= |calls| * k &&
      (forall j :: 0 <= j < |calls| - 1 ==> |calls[j].chunk| == k) &&
      1 <= |calls[|calls| - 1].chunk| <= k &&
      |calls[|calls| - 1].chunk| == |items| - (|calls| - 1) * k
  {
    var calls, k := Calls(items, opts, resolves, elapsed), opts.itemsInChunk;
    RunShaped(items, opts, resolves, elapsed, |items|);
    RunSized(items, opts, resolves, elapsed, |items|);
    CallsShape(items, opts, resolves, elapsed);
    var p := Run(items, opts, resolves, elapsed, |items|);
    assert FinalCount(|items|, opts, resolves) == 1;
    var flushes := calls[..|calls| - 1];
    FlattenLengths(flushes, k);
    var last := calls[|calls| - 1].chunk;
    assert |Flatten(flushes)| + |last| == |items|;
    assert last != [] by {
      assert last == p.chunk && p.chunk[|p.chunk| - 1] == items[|items| - 1] by {
        var q := Run(items, opts, resolves, elapsed, |items| - 1);
        assert p == Visit(q, items, |items| - 1, opts, resolves, elapsed);
      }
    }
    MulSucc(|flushes|, k);
  }

  /** Seven items in chunks of three: sizes 3, 3, 1, numbered 0, 1, 2, only the third final. */
  lemma SevenItemsInThrees<T>(items: seq<T>, resolves: nat -> bool, elapsed: nat -> bool)
    requires |items| == 7
    requires forall j :: 0 <= j < 7 ==> resolves(j)
    ensures var calls := Calls(items, ChunkOptions(0, 3, false), resolves, elapsed);
      |calls| == 3 &&
      |calls[0].chunk| == 3 && |calls[1].chunk| == 3 && |calls[2].chunk| == 1 &&
      calls[0].chunkNum == 0 && calls[1].chunkNum == 1 && calls[2].chunkNum == 2 &&
      !calls[0].isLast && !calls[1].isLast && calls[2].isLast
  {
    var opts := ChunkOptions(0, 3, false);
    CountChunkSizes(items, opts, resolves, elapsed);
    OrderAndCompleteness(items, opts, resolves, elapsed);
    ChunkNumbering(items, opts, resolves, elapsed);
  }

  /** Six items in chunks of three: sizes 3, 3, the second final. */
  lemma SixItemsInThrees<T>(items: seq<T>, resolves: nat -> bool, elapsed: nat -> bool)
    requires |items| == 6
    requires forall j :: 0 <= j < 6 ==> resolves(j)
    ensures var calls := Calls(items, ChunkOptions(0, 3, false), resolves, elapsed);
      |calls| == 2 &&
      |calls[0].chunk| == 3 && |calls[1].chunk| == 3 &&
      calls[0].chunkNum == 0 && calls[1].chunkNum == 1 &&
      !calls[0].isLast && calls[1].isLast
  {
    var opts := ChunkOptions(0, 3, false);
    CountChunkSizes(items, opts, resolves, elapsed);
    OrderAndCompleteness(items, opts, resolves, elapsed);
    ChunkNumbering(items, opts, resolves, elapsed);
  }

  /** Without any flush rule and without truncation there is one call: every item, chunk 0, final. */
  lemma SingleChunk<T>(items: seq<T>, opts: ChunkOptions, resolves: nat -> bool, elapsed: nat -> bool)
    requires opts.itemsInChunk <= 0 && !opts.chunkTimed
    requires opts.maxItems <= 0 || |items| <= opts.maxItems
    requires items != [] && resolves(|items| - 1)
    ensures Calls(items, opts, resolves, elapsed) == [Call(items, 0, true)]
  {
    var p := Run(items, opts, resolves, elapsed, |items|);
    RunShaped(items, opts, resolves, elapsed, |items|);
    assert FinalCount(|items|, opts, resolves) == 1;
    assert p.chunkNum == 0 && |p.calls| == 1;
    assert p.calls[..0] == [];
    assert items[..|items|] == items;
    assert p.calls[0] == Call(items, 0, true);
  }

  /**
   * With `maxItems = m > 0` and more than `m` items, no item at index `m` or
   * later is ever emitted, and the final call repeats once for every index
   * from `m` to the end, because the guard never stops the enumeration. With
   * a count threshold, and when the kept items all call back, the repeated
   * final chunk is smaller than the threshold (possibly empty).
   */
  lemma Truncation<T>(items: seq<T>, opts: ChunkOptions, resolves: nat -> bool, elapsed: nat -> bool)
    requires opts.maxItems > 0 && |items| > opts.maxItems
    ensures var calls, f := Calls(items, opts, resolves, elapsed), |items| - opts.maxItems;
      f <= |calls| &&
      (forall j :: |calls| - f <= j < |calls| ==> calls[j] == calls[|calls| - 1] && calls[j].isLast) &&
      (forall j :: 0 <= j < |calls| - f ==> !calls[j].isLast) &&
      Flatten(calls[..|calls| - f]) + calls[|calls| - 1].chunk == items[..opts.maxItems] &&
      ((opts.itemsInChunk > 0 && forall j :: 0 <= j < opts.maxItems ==> resolves(j)) ==>
         |calls[|calls| - 1].chunk| < opts.itemsInChunk) &&
      ((opts.itemsInChunk > 0 && !opts.chunkTimed && forall j :: 0 <= j < opts.maxItems ==> resolves(j)) ==>
         forall j :: 0 <= j < |calls| - f ==> |calls[j].chunk| == opts.itemsInChunk)
  {
    RunShaped(items, opts, resolves, elapsed, |items|);
    if forall j :: 0 <= j < opts.maxItems ==> resolves(j) {
      RunSized(items, opts, resolves, elapsed, |items|);
    }
    CallsShape(items, opts, resolves, elapsed);
  }

  /**
   * A count flush at the last allowed index leaves an empty chunk behind,
   * and that empty chunk is what the truncation guard reports as final.
   */
  lemma TruncationEmptyFinalChunk<T>(items: seq<T>, resolves: nat -> bool, elapsed: nat -> bool)
    requires |items| == 3 && resolves(0) && resolves(1)
    ensures Calls(items, ChunkOptions(2, 2, false), resolves, elapsed) ==
            [Call(items[..2], 0, false), Call([], 1, true)]
  {
    var opts := ChunkOptions(2, 2, false);
    var p0 := Run(items, opts, resolves, elapsed, 0);
    var p1 := Visit(p0, items, 0, opts, resolves, elapsed);
    assert p1 == Progress([items[0]], 0, []);
    assert Run(items, opts, resolves, elapsed, 1) == p1;
    var p2 := Visit(p1, items, 1, opts, resolves, elapsed);
    assert [items[0]] + [items[1]] == items[..2];
    assert p2 == Progress([], 1, [Call(items[..2], 0, false)]);
    assert Run(items, opts, resolves, elapsed, 2) == p2;
    var p3 := Visit(p2, items, 2, opts, resolves, elapsed);
    assert Truncated(opts, 2);
    assert Run(items, opts, resolves, elapsed, 3) == p3;
  }

  /**
   * Without truncation, when the last item's resolution never calls back no
   * call is final: the caller is never told that the enumeration is over.
   */
  lemma UnresolvedLastItemNeverFinal<T>(items: seq<T>, opts: ChunkOptions, resolves: nat -> bool, elapsed: nat -> bool)
    requires opts.maxItems <= 0 || |items| <= opts.maxItems
    requires items != [] && !resolves(|items| - 1)
    ensures forall c :: c in Calls(items, opts, resolves, elapsed) ==> !c.isLast
  {
    CallsShape(items, opts, resolves, elapsed);
    assert FinalCount(|items|, opts, resolves) == 0;
  }
}
