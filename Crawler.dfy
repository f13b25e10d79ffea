/** The driver `parse_metadata`: per address, sample the already-parsed tokens, build the
    work list, and write it in chunks, each chunk one all-or-nothing transaction, followed by
    one clean-up for the address.

    The read-only collaborators (`get_uris_of_tokens`, `get_current_metadata_for_address`,
    `get_tokens_id_wich_may_updated`), the random draws, the network and the faults a chunk
    meets are inputs. */
module Crawler {
  import opened Wrappers
  import opened Seqs
  import opened Fetcher
  import opened Sampler
  import opened WorkList
  import opened LabelStore

  /** Where one chunk's transaction raises, if anywhere. */
  datatype Fault =
    | NoFault
    | FailOnItem(index: nat)  // building or adding the label of item `index` raises
    | FailOnCleanup           // the in-chunk clean-up raises
    | FailOnCommit            // committing at the end of the transaction raises

  /** The errors nothing in `parse_metadata` catches: they end the whole run. */
  datatype Abort =
    | LeakRateAssertion  // the sampler's assertion: a negative budget gave a negative rate
    | ZeroBatchSize      // `range` with a zero step
    | CommitFailure      // the commit that opens a chunk, outside the chunk's `try`, raised
    | CleanupFailure     // the address's final clean-up, outside any `try`, raised

  /** What the collaborators and the environment supply for one address: the ids already
      parsed, the ids that may have been updated, the random draws, the outcome of attempt `k`
      for item `p` of the work list (`fetch(p)(k)`), the fault met inside chunk `i`, whether
      the commit that opens chunk `i` raises, and whether the final clean-up raises. */
  datatype AddressInputs = AddressInputs(
    alreadyParsed: seq<TokenId>,
    maybeUpdated: seq<TokenId>,
    draw: nat -> real,
    fetch: nat -> nat -> Attempt,
    fault: nat -> Fault,
    commitRaises: nat -> bool,
    cleanupRaises: bool)

  // ---------------------------------------------------------------- one chunk

  /** One label per item of `chunk`, the item at position `base + j` of the work list fetched
      with the attempt outcomes `fetch(base + j)`. */
  function ChunkLabels(tag: string, chunk: seq<TokenUri>, base: nat, fetch: nat -> nat -> Attempt): (labels: seq<Event>)
    ensures |labels| == |chunk|
    decreases |chunk|
  {
    if chunk == [] then []
    else [Insert(Label(tag, chunk[0], Fetch(fetch(base)).metadata))] + ChunkLabels(tag, chunk[1..], base + 1, fetch)
  }

  /** Label `j` of a chunk is the item at position `j` with the metadata fetched for it. */
  lemma {:induction false} ChunkLabelAt(tag: string, chunk: seq<TokenUri>, base: nat, fetch: nat -> nat -> Attempt, j: nat)
    requires j < |chunk|
    ensures ChunkLabels(tag, chunk, base, fetch)[j] == Insert(Label(tag, chunk[j], Fetch(fetch(base + j)).metadata))
    decreases j
  {
    if j > 0 {
      ChunkLabelAt(tag, chunk[1..], base + 1, fetch, j - 1);
    }
  }

  /** The labels of the first `j + 1` items extend those of the first `j` by the label of
      item `j`. */
  lemma ChunkLabelsPrefix(tag: string, chunk: seq<TokenUri>, base: nat, fetch: nat -> nat -> Attempt, j: nat)
    requires j < |chunk|
    ensures ChunkLabels(tag, chunk, base, fetch)[..j + 1] ==
      ChunkLabels(tag, chunk, base, fetch)[..j] + [Insert(Label(tag, chunk[j], Fetch(fetch(base + j)).metadata))]
  {
    var labels := ChunkLabels(tag, chunk, base, fetch);
    ChunkLabelAt(tag, chunk, base, fetch, j);
    assert labels[..j + 1] == labels[..j] + [labels[j]];
  }

  /** Whether a chunk of `size` items gets through its transaction: a fault on an item past
      the end never fires, and the clean-up runs only when some label was staged. */
  predicate Commits(fault: Fault, size: nat)
  {
    match fault
    case NoFault => true
    case FailOnItem(k) => k >= size
    case FailOnCleanup => size == 0
    case FailOnCommit => false
  }

  /** The store after the chunk, whether it was committed, and the chunk's label count. */
  datatype ChunkResult = ChunkResult(store: Store, committed: bool, written: nat)

  /** What one chunk does: whatever was pending is committed first; then either every label
      of the chunk and, when there is one, the clean-up are committed together, or nothing
      of the chunk is. No transaction is left open. */
  function WriteChunkSpec(s: Store, tag: string, address: Address, chunk: seq<TokenUri>, base: nat,
                          fetch: nat -> nat -> Attempt, fault: Fault): ChunkResult
  {
    var before := s.durable + s.pending;
    if Commits(fault, |chunk|) then
      var cleanup := if chunk == [] then [] else [Clean(tag, address)];
      ChunkResult(Store(before + ChunkLabels(tag, chunk, base, fetch) + cleanup, []), true, |chunk|)
    else
      ChunkResult(Store(before, []), false, if fault.FailOnItem? then fault.index else |chunk|)
  }

  /** The body of the chunk loop: commit, then one transaction that fetches and stages a label
      per item and, when any label was staged, stages the clean-up; a raise anywhere in it
      rolls the whole transaction back. */
  method WriteChunk(session: WriteSession, tag: string, address: Address, chunk: seq<TokenUri>, base: nat,
                    fetch: nat -> nat -> Attempt, fault: Fault) returns (committed: bool, written: nat)
    modifies session
    ensures ChunkResult(session.State(), committed, written) ==
      WriteChunkSpec(old(session.State()), tag, address, chunk, base, fetch, fault)
  {
    written := 0;
    session.Commit();
    var raised := false;
    var j := 0;
    while j < |chunk| && !raised
      invariant 0 <= j <= |chunk| && written == j
      invariant session.durable == old(session.durable) + old(session.pending)
      invariant session.pending == ChunkLabels(tag, chunk, base, fetch)[..j]
      invariant raised ==> j < |chunk| && fault == FailOnItem(j)
      invariant !raised ==> !(fault.FailOnItem? && fault.index < j)
      decreases |chunk| - j, if raised then 0 else 1
    {
      var metadata, _ := CrawlUri(fetch(base + j));
      if fault == FailOnItem(j) {
        raised := true;
      } else {
        ChunkLabelsPrefix(tag, chunk, base, fetch, j);
        session.Add(Label(tag, chunk[j], metadata));
        written := written + 1;
        j := j + 1;
      }
    }
    if !raised && written > 0 {
      if fault == FailOnCleanup {
        raised := true;
      } else {
        session.CleanLabels(tag, address);
      }
    }
    if !raised && fault == FailOnCommit {
      raised := true;
    }
    if raised {
      session.Rollback();
    } else {
      assert ChunkLabels(tag, chunk, base, fetch)[..|chunk|] == ChunkLabels(tag, chunk, base, fetch);
      session.Commit();
    }
    committed := !raised;
  }

  // ---------------------------------------------------------------- one address

  /** The store after an address's chunks, and whether the commit that opens one of them
      raised, which ends the loop and the run. */
  datatype ChunksResult = ChunksResult(store: Store, escaped: bool)

  /** The chunks of one address written in order; chunk `index` starts at `base`. A commit
      that raises before a chunk leaves the store as it was and escapes. */
  function WriteChunksSpec(s: Store, tag: string, address: Address, chunks: seq<seq<TokenUri>>, base: nat,
                           fetch: nat -> nat -> Attempt, fault: nat -> Fault, commitRaises: nat -> bool,
                           index: nat): ChunksResult
    decreases |chunks|
  {
    if chunks == [] then ChunksResult(s, false)
    else if commitRaises(index) then ChunksResult(s, true)
    else
      var r := WriteChunkSpec(s, tag, address, chunks[0], base, fetch, fault(index));
      WriteChunksSpec(r.store, tag, address, chunks[1..], base + |chunks[0]|, fetch, fault, commitRaises, index + 1)
  }

  /** Writing the chunks from `i` on, when the commit opening chunk `i` succeeds, is writing
      chunk `i`, then the chunks after it. */
  lemma WriteChunksStep(s: Store, tag: string, address: Address, chunks: seq<seq<TokenUri>>, i: nat, base: nat,
                        fetch: nat -> nat -> Attempt, fault: nat -> Fault, commitRaises: nat -> bool)
    requires i < |chunks| && !commitRaises(i)
    ensures WriteChunksSpec(s, tag, address, chunks[i..], base, fetch, fault, commitRaises, i) ==
      WriteChunksSpec(WriteChunkSpec(s, tag, address, chunks[i], base, fetch, fault(i)).store,
                      tag, address, chunks[i + 1..], base + |chunks[i]|, fetch, fault, commitRaises, i + 1)
  {
    SuffixTail(chunks, i);
  }

  /** The work list of one address: its group without the tokens the sampler kept, at the
      address's leak rate. */
  function AddressWork(group: seq<TokenUri>, maxRecrawl: int, inputs: AddressInputs): seq<TokenUri>
  {
    var rate := LeakRate(maxRecrawl, |inputs.maybeUpdated|);
    Pending(group, Leak(inputs.alreadyParsed, rate, inputs.maybeUpdated, inputs.draw, 0))
  }

  /** The store after one address, its work list, and the error that ended the run, if any. */
  datatype AddressResult = AddressResult(store: Store, work: seq<TokenUri>, abort: Option<Abort>)

  /** What one iteration of the address loop does. */
  function CrawlAddressSpec(s: Store, tag: string, address: Address, group: seq<TokenUri>,
                            batchSize: int, maxRecrawl: int, inputs: AddressInputs): AddressResult
  {
    var rate := LeakRate(maxRecrawl, |inputs.maybeUpdated|);
    if !(0.0 <= rate <= 1.0) then AddressResult(s, group, Some(LeakRateAssertion))
    else
      var work := AddressWork(group, maxRecrawl, inputs);
      match ChunkSlices(work, batchSize)
      case None => AddressResult(s, work, Some(ZeroBatchSize))
      case Some(chunks) =>
        var t := WriteChunksSpec(s, tag, address, chunks, 0, inputs.fetch, inputs.fault, inputs.commitRaises, 0);
        if t.escaped then AddressResult(t.store, work, Some(CommitFailure))
        else if inputs.cleanupRaises then AddressResult(t.store, work, Some(CleanupFailure))
        else AddressResult(Store(t.store.durable, t.store.pending + [Clean(tag, address)]), work, None)
  }

  /** One iteration of the address loop: the leak rate, the sampler, the work list, the
      chunks, and the clean-up after them. */
  method CrawlAddress(session: WriteSession, tag: string, address: Address, group: seq<TokenUri>,
                      batchSize: int, maxRecrawl: int, inputs: AddressInputs)
    returns (work: seq<TokenUri>, abort: Option<Abort>)
    modifies session
    ensures AddressResult(session.State(), work, abort) ==
      CrawlAddressSpec(old(session.State()), tag, address, group, batchSize, maxRecrawl, inputs)
  {
    var rate := 0.0;
    if |inputs.maybeUpdated| > 0 {
      rate := maxRecrawl as real / |inputs.maybeUpdated| as real;
      if rate > 1.0 {
        rate := 1.0;
      }
    }
    var sample := LeakOfCrawledUri(inputs.alreadyParsed, rate, inputs.maybeUpdated, inputs.draw);
    if sample.RateOutOfRange? {
      return group, Some(LeakRateAssertion);
    }
    work := Pending(group, sample.ids);
    var slices := ChunkSlices(work, batchSize);
    if slices.None? {
      return work, Some(ZeroBatchSize);
    }
    var chunks := slices.value;
    var base: nat := 0;
    for i := 0 to |chunks|
      invariant WriteChunksSpec(session.State(), tag, address, chunks[i..], base, inputs.fetch, inputs.fault, inputs.commitRaises, i) ==
        WriteChunksSpec(old(session.State()), tag, address, chunks, 0, inputs.fetch, inputs.fault, inputs.commitRaises, 0)
    {
      if inputs.commitRaises(i) {
        // the commit that opens the chunk is outside the chunk's `try`
        return work, Some(CommitFailure);
      }
      WriteChunksStep(session.State(), tag, address, chunks, i, base, inputs.fetch, inputs.fault, inputs.commitRaises);
      var committed, written := WriteChunk(session, tag, address, chunks[i], base, inputs.fetch, inputs.fault(i));
      base := base + |chunks[i]|;
    }
    assert chunks[|chunks|..] == [];
    if inputs.cleanupRaises {
      // the final clean-up is outside any `try`
      return work, Some(CleanupFailure);
    }
    session.CleanLabels(tag, address);
    abort := None;
  }

  // ---------------------------------------------------------------- the run

  /** The store after the run and the error that ended it early, if any. */
  datatype RunResult = RunResult(store: Store, abort: Option<Abort>)

  /** The address loop over `order`, each address with its group of `records`. */
  function RunSpec(s: Store, tag: string, order: seq<Address>, records: seq<TokenUri>,
                   batchSize: int, maxRecrawl: int, env: Address -> AddressInputs): RunResult
    decreases |order|
  {
    if order == [] then RunResult(s, None)
    else
      var a := order[0];
      var r := CrawlAddressSpec(s, tag, a, RecordsAt(records, a), batchSize, maxRecrawl, env(a));
      if r.abort.Some? then RunResult(r.store, r.abort)
      else RunSpec(r.store, tag, order[1..], records, batchSize, maxRecrawl, env)
  }

  /** Replacing the group of the address at position `i` of the key order leaves the keys as
      they were and the groups of the addresses after it untouched. */
  lemma VisitKeepsGroups(records: seq<TokenUri>, order: seq<Address>, groups: map<Address, seq<TokenUri>>,
                         i: nat, work: seq<TokenUri>)
    requires order == AddressesOf(records) && i < |order|
    requires forall a :: a in groups <==> a in order
    requires forall j :: i <= j < |order| ==> groups[order[j]] == RecordsAt(records, order[j])
    ensures forall a :: a in groups[order[i] := work] <==> a in order
    ensures forall j :: i + 1 <= j < |order| ==> groups[order[i] := work][order[j]] == RecordsAt(records, order[j])
  {
  }

  /** `parse_metadata`: group the token URIs by address, then crawl each address in the
      dictionary's key order, replacing its list by its work list. */
  method ParseMetadata(session: WriteSession, tag: string, records: seq<TokenUri>,
                       batchSize: int, maxRecrawl: int, env: Address -> AddressInputs)
    returns (abort: Option<Abort>)
    modifies session
    ensures RunResult(session.State(), abort) ==
      RunSpec(old(session.State()), tag, AddressesOf(records), records, batchSize, maxRecrawl, env)
  {
    var order, groups := GroupByAddress(records);
    abort := None;
    for i := 0 to |order|
      invariant forall a :: a in groups <==> a in order
      invariant forall j :: i <= j < |order| ==> groups[order[j]] == RecordsAt(records, order[j])
      invariant RunSpec(session.State(), tag, order[i..], records, batchSize, maxRecrawl, env) ==
        RunSpec(old(session.State()), tag, order, records, batchSize, maxRecrawl, env)
    {
      SuffixTail(order, i);
      var address := order[i];
      var work, failure := CrawlAddress(session, tag, address, groups[address], batchSize, maxRecrawl, env(address));
      if failure.Some? {
        return failure;
      }
      VisitKeepsGroups(records, order, groups, i, work);
      groups := groups[address := work];
    }
    assert order[|order|..] == [];
  }
}
