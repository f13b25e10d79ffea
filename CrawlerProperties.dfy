/** Properties of the driver: atomic chunks, the trailing clean-up, and when a run aborts. */
module CrawlerProperties {
  import opened Wrappers
  import opened Seqs
  import opened Fetcher
  import opened Sampler
  import opened WorkList
  import opened LabelStore
  import opened Crawler

  /** What each chunk commits, chunk by chunk: all of its labels and its clean-up, or
      nothing; nothing more once the commit opening a chunk raises. */
  function CommittedEvents(tag: string, address: Address, chunks: seq<seq<TokenUri>>, base: nat,
                           fetch: nat -> nat -> Attempt, fault: nat -> Fault, commitRaises: nat -> bool,
                           index: nat): seq<Event>
    decreases |chunks|
  {
    if chunks == [] || commitRaises(index) then []
    else
      ChunkCommitted(tag, address, chunks[0], base, fetch, fault(index))
      + CommittedEvents(tag, address, chunks[1..], base + |chunks[0]|, fetch, fault, commitRaises, index + 1)
  }

  /** What one chunk commits: its labels and, when it has items, its clean-up, or nothing. */
  function ChunkCommitted(tag: string, address: Address, chunk: seq<TokenUri>, base: nat,
                          fetch: nat -> nat -> Attempt, fault: Fault): seq<Event>
  {
    if Commits(fault, |chunk|) then ChunkLabels(tag, chunk, base, fetch) + (if chunk == [] then [] else [Clean(tag, address)])
    else []
  }

  /** A chunk commits what was pending before it, then what it commits itself. */
  lemma WriteChunkCommits(s: Store, tag: string, address: Address, chunk: seq<TokenUri>, base: nat,
                          fetch: nat -> nat -> Attempt, fault: Fault)
    ensures WriteChunkSpec(s, tag, address, chunk, base, fetch, fault).store ==
      Store(s.durable + s.pending + ChunkCommitted(tag, address, chunk, base, fetch, fault), [])
  {
    if Commits(fault, |chunk|) {
      var labels := ChunkLabels(tag, chunk, base, fetch);
      var cleanup := if chunk == [] then [] else [Clean(tag, address)];
      assert s.durable + s.pending + labels + cleanup == s.durable + s.pending + (labels + cleanup);
    } else {
      assert s.durable + s.pending + [] == s.durable + s.pending;
    }
  }

  /** Writing the chunks commits what was pending before the first of them, then each chunk
      whole or not at all, and leaves no transaction open; when there is no chunk, or the
      first commit raises, the store is left as it was. */
  lemma {:induction false} ChunksCommitWhole(s: Store, tag: string, address: Address, chunks: seq<seq<TokenUri>>,
                                             base: nat, fetch: nat -> nat -> Attempt, fault: nat -> Fault,
                                             commitRaises: nat -> bool, index: nat)
    ensures chunks == [] || commitRaises(index) ==>
      WriteChunksSpec(s, tag, address, chunks, base, fetch, fault, commitRaises, index).store == s
    ensures chunks != [] && !commitRaises(index) ==>
      (WriteChunksSpec(s, tag, address, chunks, base, fetch, fault, commitRaises, index).store ==
       Store(s.durable + s.pending + CommittedEvents(tag, address, chunks, base, fetch, fault, commitRaises, index), []))
    decreases |chunks|
  {
    if chunks != [] && !commitRaises(index) {
      var c := chunks[0];
      var first := ChunkCommitted(tag, address, c, base, fetch, fault(index));
      var t := WriteChunkSpec(s, tag, address, c, base, fetch, fault(index)).store;
      var rest := CommittedEvents(tag, address, chunks[1..], base + |c|, fetch, fault, commitRaises, index + 1);
      if chunks[1..] == [] || commitRaises(index + 1) {
        calc {
          WriteChunksSpec(s, tag, address, chunks, base, fetch, fault, commitRaises, index).store;
          WriteChunksSpec(t, tag, address, chunks[1..], base + |c|, fetch, fault, commitRaises, index + 1).store;
          t;
          { WriteChunkCommits(s, tag, address, c, base, fetch, fault(index)); }
          Store(s.durable + s.pending + first, []);
          { assert first + rest == first; }
          Store(s.durable + s.pending + CommittedEvents(tag, address, chunks, base, fetch, fault, commitRaises, index), []);
        }
      } else {
        calc {
          WriteChunksSpec(s, tag, address, chunks, base, fetch, fault, commitRaises, index).store;
          WriteChunksSpec(t, tag, address, chunks[1..], base + |c|, fetch, fault, commitRaises, index + 1).store;
          { ChunksCommitWhole(t, tag, address, chunks[1..], base + |c|, fetch, fault, commitRaises, index + 1); }
          Store(t.durable + t.pending + rest, []);
          { WriteChunkCommits(s, tag, address, c, base, fetch, fault(index));
            assert s.durable + s.pending + first + [] + rest == s.durable + s.pending + (first + rest); }
          Store(s.durable + s.pending + (first + rest), []);
          Store(s.durable + s.pending + CommittedEvents(tag, address, chunks, base, fetch, fault, commitRaises, index), []);
        }
      }
    }
  }

  /** The chunk loop escapes exactly when the commit opening one of its chunks raises. */
  lemma {:induction false} ChunksEscape(s: Store, tag: string, address: Address, chunks: seq<seq<TokenUri>>,
                                        base: nat, fetch: nat -> nat -> Attempt, fault: nat -> Fault,
                                        commitRaises: nat -> bool, index: nat)
    ensures !WriteChunksSpec(s, tag, address, chunks, base, fetch, fault, commitRaises, index).escaped <==>
      forall i :: index <= i < index + |chunks| ==> !commitRaises(i)
    decreases |chunks|
  {
    if chunks != [] && !commitRaises(index) {
      var t := WriteChunkSpec(s, tag, address, chunks[0], base, fetch, fault(index)).store;
      ChunksEscape(t, tag, address, chunks[1..], base + |chunks[0]|, fetch, fault, commitRaises, index + 1);
    }
  }

  /** The tokens of the labels inserted by `events`, in order. */
  function Tokens(events: seq<Event>): seq<TokenUri>
  {
    if events == [] then []
    else (if events[0].Insert? then [events[0].row.token] else []) + Tokens(events[1..])
  }

  lemma {:induction false} TokensAppend(a: seq<Event>, b: seq<Event>)
    ensures Tokens(a + b) == Tokens(a) + Tokens(b)
  {
    if a == [] {
      assert a + b == b;
    } else {
      var head := if a[0].Insert? then [a[0].row.token] else [];
      assert (a + b)[0] == a[0];
      assert (a + b)[1..] == a[1..] + b;
      TokensAppend(a[1..], b);
      calc {
        Tokens(a + b);
        head + Tokens(a[1..] + b);
        head + (Tokens(a[1..]) + Tokens(b));
        (head + Tokens(a[1..])) + Tokens(b);
        Tokens(a) + Tokens(b);
      }
    }
  }

  /** A chunk's labels are one per item, in the chunk's order. */
  lemma {:induction false} ChunkLabelsCoverChunk(tag: string, chunk: seq<TokenUri>, base: nat, fetch: nat -> nat -> Attempt)
    ensures Tokens(ChunkLabels(tag, chunk, base, fetch)) == chunk
    decreases |chunk|
  {
    if chunk != [] {
      assert ChunkLabels(tag, chunk, base, fetch)[1..] == ChunkLabels(tag, chunk[1..], base + 1, fetch);
      ChunkLabelsCoverChunk(tag, chunk[1..], base + 1, fetch);
    }
  }

  /** A committed chunk contributes one label per item, in order, and its clean-up. */
  lemma CommittedChunkTokens(tag: string, address: Address, c: seq<TokenUri>, base: nat, fetch: nat -> nat -> Attempt)
    ensures Tokens(ChunkLabels(tag, c, base, fetch) + (if c == [] then [] else [Clean(tag, address)])) == c
  {
    var cleanup := if c == [] then [] else [Clean(tag, address)];
    TokensAppend(ChunkLabels(tag, c, base, fetch), cleanup);
    ChunkLabelsCoverChunk(tag, c, base, fetch);
    assert Tokens(cleanup) == [];
    assert c + [] == c;
  }

  /** When no chunk meets a fault, every item of every chunk gets exactly one label, in
      order. */
  lemma {:induction false} FaultlessChunksLabelEveryItem(tag: string, address: Address, chunks: seq<seq<TokenUri>>,
                                                         base: nat, fetch: nat -> nat -> Attempt, fault: nat -> Fault,
                                                         commitRaises: nat -> bool, index: nat)
    requires forall i :: fault(i) == NoFault && !commitRaises(i)
    ensures Tokens(CommittedEvents(tag, address, chunks, base, fetch, fault, commitRaises, index)) == Flatten(chunks)
    decreases |chunks|
  {
    if chunks != [] {
      var c := chunks[0];
      var first := ChunkLabels(tag, c, base, fetch) + (if c == [] then [] else [Clean(tag, address)]);
      var rest := CommittedEvents(tag, address, chunks[1..], base + |c|, fetch, fault, commitRaises, index + 1);
      calc {
        Tokens(CommittedEvents(tag, address, chunks, base, fetch, fault, commitRaises, index));
        { assert !commitRaises(index); }
        Tokens(ChunkCommitted(tag, address, c, base, fetch, fault(index)) + rest);
        { assert fault(index) == NoFault; }
        Tokens(first + rest);
        { TokensAppend(first, rest); }
        Tokens(first) + Tokens(rest);
        { CommittedChunkTokens(tag, address, c, base, fetch); }
        c + Tokens(rest);
        { FaultlessChunksLabelEveryItem(tag, address, chunks[1..], base + |c|, fetch, fault, commitRaises, index + 1); }
        c + Flatten(chunks[1..]);
      }
    }
  }

  /** When an address is crawled without aborting, what is left pending is exactly one
      clean-up for it, behind whatever was pending before when there was no chunk to commit
      it; and the chunks committed before it are all or nothing each. */
  lemma AddressEndsWithOneCleanup(s: Store, tag: string, address: Address, group: seq<TokenUri>,
                                  batchSize: int, maxRecrawl: int, inputs: AddressInputs)
    requires CrawlAddressSpec(s, tag, address, group, batchSize, maxRecrawl, inputs).abort == None
    ensures var r := CrawlAddressSpec(s, tag, address, group, batchSize, maxRecrawl, inputs);
      batchSize != 0 &&
      (r.work == [] || batchSize < 0 ==> r.store == Store(s.durable, s.pending + [Clean(tag, address)])) &&
      (r.work != [] && batchSize > 0 ==> r.store == Store(
        s.durable + s.pending + CommittedEvents(tag, address, Chunks(r.work, batchSize), 0, inputs.fetch, inputs.fault,
                                               inputs.commitRaises, 0),
        [Clean(tag, address)]))
  {
    var r := CrawlAddressSpec(s, tag, address, group, batchSize, maxRecrawl, inputs);
    if batchSize > 0 {
      ChunksPartition(r.work, batchSize);
      ChunksCommitWhole(s, tag, address, Chunks(r.work, batchSize), 0, inputs.fetch, inputs.fault, inputs.commitRaises, 0);
    }
  }

  /** With a positive batch size, a budget that is not negative, no fault in any chunk and no
      commit or clean-up that raises, every token of the work list gets exactly one committed
      label, in work-list order. */
  lemma AddressLabelsWorkList(s: Store, tag: string, address: Address, group: seq<TokenUri>,
                              batchSize: int, maxRecrawl: int, inputs: AddressInputs)
    requires batchSize > 0 && maxRecrawl >= 0
    requires forall i :: inputs.fault(i) == NoFault && !inputs.commitRaises(i)
    requires !inputs.cleanupRaises
    ensures var r := CrawlAddressSpec(s, tag, address, group, batchSize, maxRecrawl, inputs);
      r.abort == None &&
      Tokens(r.store.durable) == Tokens(s.durable) + (if r.work == [] then [] else Tokens(s.pending) + r.work)
  {
    var rate := LeakRate(maxRecrawl, |inputs.maybeUpdated|);
    var work := Pending(group, Leak(inputs.alreadyParsed, rate, inputs.maybeUpdated, inputs.draw, 0));
    var chunks := Chunks(work, batchSize);
    var w := WriteChunksSpec(s, tag, address, chunks, 0, inputs.fetch, inputs.fault, inputs.commitRaises, 0);
    var t := w.store;
    ChunksEscape(s, tag, address, chunks, 0, inputs.fetch, inputs.fault, inputs.commitRaises, 0);
    assert !w.escaped;
    assert CrawlAddressSpec(s, tag, address, group, batchSize, maxRecrawl, inputs) ==
      AddressResult(Store(t.durable, t.pending + [Clean(tag, address)]), work, None);
    ChunksPartition(work, batchSize);
    ChunksCommitWhole(s, tag, address, chunks, 0, inputs.fetch, inputs.fault, inputs.commitRaises, 0);
    if work != [] {
      var before := s.durable + s.pending;
      var committed := CommittedEvents(tag, address, chunks, 0, inputs.fetch, inputs.fault, inputs.commitRaises, 0);
      calc {
        Tokens(t.durable);
        Tokens(before + committed);
        { TokensAppend(before, committed); }
        Tokens(before) + Tokens(committed);
        { TokensAppend(s.durable, s.pending);
          FaultlessChunksLabelEveryItem(tag, address, chunks, 0, inputs.fetch, inputs.fault, inputs.commitRaises, 0); }
        Tokens(s.durable) + Tokens(s.pending) + work;
      }
    }
  }

  /** The number of chunks an address's work list is cut into; none when the batch size is
      not positive. */
  function ChunkTotal(work: seq<TokenUri>, batchSize: int): nat
  {
    if batchSize > 0 then |Chunks(work, batchSize)| else 0
  }

  /** The conditions under which crawling one address raises nothing out of the chunk loop:
      a non-zero batch size, a rate in [0, 1], no commit that raises before one of its
      chunks, and a final clean-up that does not raise. None of them depends on the store. */
  predicate AddressCompletes(group: seq<TokenUri>, batchSize: int, maxRecrawl: int, inputs: AddressInputs)
  {
    batchSize != 0 &&
    (maxRecrawl >= 0 || inputs.maybeUpdated == []) &&
    (forall i :: 0 <= i < ChunkTotal(AddressWork(group, maxRecrawl, inputs), batchSize) ==> !inputs.commitRaises(i)) &&
    !inputs.cleanupRaises
  }

  /** Crawling one address aborts exactly when one of the four uncaught errors happens. */
  lemma AddressAborts(s: Store, tag: string, address: Address, group: seq<TokenUri>,
                      batchSize: int, maxRecrawl: int, inputs: AddressInputs)
    ensures CrawlAddressSpec(s, tag, address, group, batchSize, maxRecrawl, inputs).abort == None <==>
      AddressCompletes(group, batchSize, maxRecrawl, inputs)
  {
    var rate := LeakRate(maxRecrawl, |inputs.maybeUpdated|);
    if 0.0 <= rate <= 1.0 && batchSize != 0 {
      var work := AddressWork(group, maxRecrawl, inputs);
      var chunks := if batchSize > 0 then Chunks(work, batchSize) else [];
      assert ChunkSlices(work, batchSize) == Some(chunks);
      ChunksEscape(s, tag, address, chunks, 0, inputs.fetch, inputs.fault, inputs.commitRaises, 0);
    }
  }

  /** A run ends early exactly when some address it reaches does not complete. */
  lemma {:induction false} RunAborts(s: Store, tag: string, order: seq<Address>, records: seq<TokenUri>,
                                     batchSize: int, maxRecrawl: int, env: Address -> AddressInputs)
    ensures RunSpec(s, tag, order, records, batchSize, maxRecrawl, env).abort == None <==>
      forall i :: 0 <= i < |order| ==> AddressCompletes(RecordsAt(records, order[i]), batchSize, maxRecrawl, env(order[i]))
    decreases |order|
  {
    if order != [] {
      var a := order[0];
      var r := CrawlAddressSpec(s, tag, a, RecordsAt(records, a), batchSize, maxRecrawl, env(a));
      AddressAborts(s, tag, a, RecordsAt(records, a), batchSize, maxRecrawl, env(a));
      RunAborts(r.store, tag, order[1..], records, batchSize, maxRecrawl, env);
      if r.abort == None {
        assert (forall i :: 0 <= i < |order| ==> AddressCompletes(RecordsAt(records, order[i]), batchSize, maxRecrawl, env(order[i]))) <==>
          (forall i :: 0 <= i < |order[1..]| ==>
             AddressCompletes(RecordsAt(records, order[1..][i]), batchSize, maxRecrawl, env(order[1..][i]))) by {
          forall i | 0 < i < |order|
            ensures order[i] == order[1..][i - 1]
          {
          }
        }
      }
    }
  }
}
