/** cre/lib/log-range.js and `scan` in packages/sdk/arc.js: a block range is cut into chunks, the chunks are
    fetched in bounded batches whose replies arrive in any order, and the pages are put back in block order. */
module LogScan {
  import opened Basics

  datatype Range = Range(first: int, last: int)

  // ---------------------------------------------------------------- chunks

  /** The inclusive ranges that `blockRangeChunks` pushes, from block `first` on. */
  function Chunks(first: int, last: int, width: int): seq<Range>
    requires width > 0
    decreases last - first + 1
  {
    if first > last then [] else [Range(first, Min(first + width - 1, last))] + Chunks(first + width, last, width)
  }

  ghost predicate Covers(c: seq<Range>, first: int, last: int, width: int) {
    && (c != [] ==> c[0].first == first && c[|c| - 1].last == last)
    && (forall i :: 0 <= i < |c| ==> first <= c[i].first <= c[i].last <= last && c[i].last - c[i].first < width)
    && (forall i :: 0 < i < |c| ==> c[i].first == c[i - 1].last + 1)
    && (forall i :: 0 <= i < |c| - 1 ==> c[i].last - c[i].first == width - 1)
  }

  /** The chunks follow one another without gap or overlap, all but the last are as wide as allowed and it is no
      wider, and together they are exactly the range. */
  lemma {:induction false} ChunksCover(first: int, last: int, width: int)
    requires width > 0
    ensures Chunks(first, last, width) == [] <==> last < first
    ensures Covers(Chunks(first, last, width), first, last, width)
    decreases last - first + 1
  {
    if first <= last {
      ChunksCover(first + width, last, width);
      var c, rest := Chunks(first, last, width), Chunks(first + width, last, width);
      assert forall i :: 0 < i < |c| ==> c[i] == rest[i - 1];
    }
  }

  /** `blockRangeChunks`: none when the width is refused. */
  method BlockRangeChunks(fromBlock: int, toBlock: int, maxRange: int) returns (chunks: Option<seq<Range>>)
    ensures chunks == if maxRange <= 0 then None else Some(Chunks(fromBlock, toBlock, maxRange))
  {
    if maxRange <= 0 { return None; }
    var first, pushed := fromBlock, [];
    while first <= toBlock
      invariant Chunks(fromBlock, toBlock, maxRange) == pushed + Chunks(first, toBlock, maxRange)
    {
      var end := first + maxRange - 1;
      pushed := pushed + [Range(first, if end > toBlock then toBlock else end)];
      first := first + maxRange;
    }
    assert pushed + [] == pushed;
    return Some(pushed);
  }

  // ---------------------------------------------------------------- what a range holds

  /** A log, at its block. The node lists the logs of a range in the order of the chain. */
  datatype Log<T> = Log(block: int, payload: T)

  ghost predicate InChainOrder<T>(logs: seq<Log<T>>) {
    forall i, j :: 0 <= i < j < |logs| ==> logs[i].block <= logs[j].block
  }

  /** `getLogs` */
  function Within<T>(logs: seq<Log<T>>, first: int, last: int): seq<Log<T>> {
    if logs == [] then []
    else (if first <= logs[0].block <= last then [logs[0]] else []) + Within(logs[1..], first, last)
  }

  lemma {:induction false} NothingWithin<T>(logs: seq<Log<T>>, first: int, last: int)
    requires forall i :: 0 <= i < |logs| ==> !(first <= logs[i].block <= last)
    ensures Within(logs, first, last) == []
  {
    if logs != [] { NothingWithin(logs[1..], first, last); }
  }

  lemma WithinCons<T>(log: Log<T>, rest: seq<Log<T>>, first: int, last: int)
    ensures Within([log] + rest, first, last)
            == (if first <= log.block <= last then [log] else []) + Within(rest, first, last)
  {
    assert ([log] + rest)[1..] == rest;
  }

  lemma RestInOrder<T>(logs: seq<Log<T>>, first: int, cut: int)
    requires InChainOrder(logs) && logs != []
    ensures InChainOrder(logs[1..])
    ensures logs[0].block > cut ==> Within(logs[1..], first, cut) == []
  {
    if logs[0].block > cut {
      hide Within;
      NothingWithin(logs[1..], first, cut);
    }
  }

  /** The logs of a range are the stretch of the chain's logs from the first at or after `first` to the last at or
      before `last`. */
  lemma {:induction false} WithinIsAStretch<T>(logs: seq<Log<T>>, first: int, last: int) returns (i: nat, j: nat)
    requires InChainOrder(logs)
    ensures i <= j <= |logs| && Within(logs, first, last) == logs[i..j]
    ensures forall k :: 0 <= k < i ==> logs[k].block < first
    ensures forall k :: i <= k < j ==> first <= logs[k].block <= last
    ensures forall k :: j <= k < |logs| ==> last < logs[k].block
  {
    hide Within, InChainOrder;
    if logs == [] {
      NothingWithin(logs, first, last);
      i, j := 0, 0;
    } else {
      var log, rest := logs[0], logs[1..];
      assert logs == [log] + rest;
      FirstIsEarliest(logs);
      WithinCons(log, rest, first, last);
      i, j := WithinIsAStretch(rest, first, last);
      StretchGrows(log, rest, i, j);
      assert rest != [] ==> log.block <= rest[0].block;
      if log.block < first {
        i, j := i + 1, j + 1;
      } else {
        if log.block <= last { j := j + 1; }
      }
    }
  }

  lemma FirstIsEarliest<T>(logs: seq<Log<T>>)
    requires InChainOrder(logs) && logs != []
    ensures InChainOrder(logs[1..]) && forall k :: 0 <= k < |logs[1..]| ==> logs[0].block <= logs[1..][k].block
  {
  }

  lemma StretchGrows<T>(log: Log<T>, rest: seq<Log<T>>, i: nat, j: nat)
    requires i <= j <= |rest|
    ensures ([log] + rest)[i + 1..j + 1] == rest[i..j]
    ensures i == 0 ==> ([log] + rest)[..j + 1] == [log] + rest[..j]
    ensures forall k :: 1 <= k < |rest| + 1 ==> ([log] + rest)[k] == rest[k - 1]
  {
  }

  /** A range cut in two holds what its halves hold. */
  lemma {:induction false} WithinSplits<T>(logs: seq<Log<T>>, first: int, cut: int, last: int)
    requires InChainOrder(logs) && first <= cut + 1 && cut <= last
    ensures Within(logs, first, last) == Within(logs, first, cut) + Within(logs, cut + 1, last)
  {
    hide Within, InChainOrder;
    if logs == [] {
      NothingWithin(logs, first, last);
      NothingWithin(logs, first, cut);
      NothingWithin(logs, cut + 1, last);
    } else {
      var log, rest := logs[0], logs[1..];
      assert logs == [log] + rest;
      RestInOrder(logs, first, cut);
      WithinSplits(rest, first, cut, last);
      WithinCons(log, rest, first, last);
      WithinCons(log, rest, first, cut);
      WithinCons(log, rest, cut + 1, last);
      assert [log] + (Within(rest, first, cut) + Within(rest, cut + 1, last))
             == ([log] + Within(rest, first, cut)) + Within(rest, cut + 1, last);
    }
  }

  function Flat<T>(pages: seq<seq<Log<T>>>): seq<Log<T>> { if pages == [] then [] else pages[0] + Flat(pages[1..]) }

  /** One page per chunk. */
  ghost function Pages<T>(logs: seq<Log<T>>, chunks: seq<Range>): (pages: seq<seq<Log<T>>>)
    ensures |pages| == |chunks|
    ensures forall i :: 0 <= i < |chunks| ==> pages[i] == Within(logs, chunks[i].first, chunks[i].last)
  {
    seq(|chunks|, i requires 0 <= i < |chunks| => Within(logs, chunks[i].first, chunks[i].last))
  }

  /** The pages in chunk order are the whole range in block order, whatever the width. */
  lemma {:induction false} PagesAreTheRange<T>(logs: seq<Log<T>>, first: int, last: int, width: int)
    requires InChainOrder(logs) && width > 0
    ensures Flat(Pages(logs, Chunks(first, last, width))) == Within(logs, first, last)
    decreases last - first + 1
  {
    hide Within, InChainOrder;
    if first > last {
      NothingPastTheEnd(logs, first, last);
    } else {
      var end := Min(first + width - 1, last);
      PagesAreTheRange(logs, first + width, last, width);
      PagesCons(logs, Range(first, end), Chunks(first + width, last, width));
      WithinSplits(logs, first, end, last);
      if first + width > last {
        NothingPastTheEnd(logs, first + width, last);
        NothingPastTheEnd(logs, end + 1, last);
      }
    }
  }

  lemma PagesCons<T>(logs: seq<Log<T>>, chunk: Range, chunks: seq<Range>)
    ensures Flat(Pages(logs, [chunk] + chunks)) == Within(logs, chunk.first, chunk.last) + Flat(Pages(logs, chunks))
  {
    hide Within;
    assert Pages(logs, [chunk] + chunks)[1..] == Pages(logs, chunks);
  }

  lemma NothingPastTheEnd<T>(logs: seq<Log<T>>, first: int, last: int)
    requires last < first
    ensures Within(logs, first, last) == []
  {
    NothingWithin(logs, first, last);
  }

  // ---------------------------------------------------------------- the batches

  function Slots(n: nat): (slots: set<nat>)
    ensures forall k :: k in slots <==> 0 <= k < n
  {
    if n == 0 then {} else Slots(n - 1) + {n - 1}
  }

  /** One batch of requests: the replies come in whatever order they come, each into its own slot. */
  method FetchBatch<T(0)>(logs: seq<Log<T>>, batch: seq<Range>) returns (results: seq<seq<Log<T>>>)
    ensures results == Pages(logs, batch)
  {
    var slots := new seq<Log<T>>[|batch|](_ => []);
    var outstanding := Slots(|batch|);
    while outstanding != {}
      invariant slots.Length == |batch| && fresh(slots)
      invariant forall k <- outstanding :: 0 <= k < |batch|
      invariant forall k :: 0 <= k < |batch| && k !in outstanding ==>
                              slots[k] == Within(logs, batch[k].first, batch[k].last)
      decreases outstanding
    {
      var k :| k in outstanding;
      slots[k] := Within(logs, batch[k].first, batch[k].last);
      outstanding := outstanding - {k};
    }
    results := slots[..];
  }

  /** The batches one after another, each page written into its chunk's slot. */
  method FetchAll<T(0)>(logs: seq<Log<T>>, chunks: seq<Range>, scanConcurrency: int) returns (fetched: seq<seq<Log<T>>>)
    requires scanConcurrency > 0
    ensures fetched == Pages(logs, chunks)
  {
    var pages := new seq<Log<T>>[|chunks|](_ => []);
    hide Within;
    var i := 0;
    while i < |chunks|
      invariant 0 <= i && pages.Length == |chunks| && fresh(pages)
      invariant forall k :: 0 <= k < i && k < |chunks| ==> pages[k] == Within(logs, chunks[k].first, chunks[k].last)
    {
      var batch := chunks[i..Min(i + scanConcurrency, |chunks|)];
      var results := FetchBatch(logs, batch);
      for offset := 0 to |results|
        invariant pages.Length == |chunks|
        invariant forall k :: 0 <= k < i + offset ==> pages[k] == Within(logs, chunks[k].first, chunks[k].last)
      {
        pages[i + offset] := results[offset];
      }
      i := i + scanConcurrency;
    }
    fetched := pages[..];
  }

  /** `scan`: whatever the width and the number of requests in flight, one filter over the whole range. */
  method Scan<T(0)>(logs: seq<Log<T>>, start: int, latest: int, maxBlockRange: int, scanConcurrency: int)
    returns (found: seq<Log<T>>)
    requires maxBlockRange > 0 && scanConcurrency > 0
    requires InChainOrder(logs)
    ensures found == Within(logs, start, latest)
  {
    PagesAreTheRange(logs, start, latest, maxBlockRange);
    hide Within, InChainOrder;
    var chunks, first := [], start;
    while first <= latest
      invariant Chunks(start, latest, maxBlockRange) == chunks + Chunks(first, latest, maxBlockRange)
    {
      var last := if first + maxBlockRange - 1 > latest then latest else first + maxBlockRange - 1;
      chunks := chunks + [Range(first, last)];
      first := first + maxBlockRange;
    }
    assert chunks + [] == chunks;
    var pages := FetchAll(logs, chunks, scanConcurrency);
    found := Flat(pages);
  }
}
