/** The per-address work list of the metadata crawler: token URIs grouped by address, those
    the sampler kept removed, the rest sliced into commit batches. */
module WorkList {
  import opened Wrappers
  import opened Seqs
  import Sampler

  type Address = string

  /** Token ids are nullable strings. */
  type TokenId = Option<string>

  /** One token URI discovered upstream. */
  datatype TokenUri = TokenUri(address: Address, tokenId: TokenId, tokenUri: string)

  // ---------------------------------------------------------------- grouping

  /** The predicate "belongs to `a`", as the function `Filter` takes. */
  function AtAddress(a: Address): TokenUri -> bool
  {
    (r: TokenUri) => r.address == a
  }

  /** The records of address `a`, in their input order. */
  function RecordsAt(records: seq<TokenUri>, a: Address): seq<TokenUri>
  {
    Filter(records, AtAddress(a))
  }

  /** The addresses of `records`, each once, in order of first appearance: the key order of
      the grouping dictionary. */
  function AddressesOf(records: seq<TokenUri>): (order: seq<Address>)
    ensures forall i, j :: 0 <= i < j < |order| ==> order[i] != order[j]
    ensures forall r :: r in records ==> r.address in order
    decreases |records|
  {
    if records == [] then []
    else
      var init := records[..|records| - 1];
      var last := records[|records| - 1];
      var order := AddressesOf(init);
      if last.address in order then order else order + [last.address]
  }

  /** Every key is the address of some record: the grouping dictionary never holds a key
      with an empty list. */
  lemma {:induction false} KeysAreRecordAddresses(records: seq<TokenUri>)
    ensures forall a :: a in AddressesOf(records) ==> exists r :: r in records && r.address == a
    decreases |records|
  {
    if records != [] {
      var init := records[..|records| - 1];
      var last := records[|records| - 1];
      assert records == init + [last];
      KeysAreRecordAddresses(init);
      forall a | a in AddressesOf(records)
        ensures exists r :: r in records && r.address == a
      {
        if a == last.address {
          assert last in records;
        } else {
          assert a in AddressesOf(init);
          var r :| r in init && r.address == a;
          assert r in records;
        }
      }
    }
  }

  /** How the groups change when one record is appended. */
  lemma RecordsAtSnoc(init: seq<TokenUri>, last: TokenUri, a: Address)
    ensures RecordsAt(init + [last], a) == RecordsAt(init, a) + (if last.address == a then [last] else [])
  {
    FilterSnoc(init, last, AtAddress(a));
  }

  /** How the key order changes when one record is appended. */
  lemma AddressesOfSnoc(init: seq<TokenUri>, last: TokenUri)
    ensures AddressesOf(init + [last]) ==
      if last.address in AddressesOf(init) then AddressesOf(init) else AddressesOf(init) + [last.address]
  {
    assert (init + [last])[..|init|] == init;
  }

  /** An address that is not a key has no records. */
  lemma {:induction false} RecordsAtUnlisted(records: seq<TokenUri>, a: Address)
    requires a !in AddressesOf(records)
    ensures RecordsAt(records, a) == []
    decreases |records|
  {
    if records != [] {
      var init := records[..|records| - 1];
      var last := records[|records| - 1];
      assert records == init + [last];
      AddressesOfSnoc(init, last);
      RecordsAtSnoc(init, last, a);
      RecordsAtUnlisted(init, a);
    }
  }

  /** The grouping loop of `parse_metadata`: one list per address, in key-insertion order. */
  method GroupByAddress(records: seq<TokenUri>) returns (order: seq<Address>, groups: map<Address, seq<TokenUri>>)
    ensures order == AddressesOf(records)
    ensures forall a :: a in groups <==> a in order
    ensures forall a :: a in groups ==> groups[a] == RecordsAt(records, a)
  {
    order, groups := [], map[];
    for i := 0 to |records|
      invariant order == AddressesOf(records[..i])
      invariant forall a :: a in groups <==> a in order
      invariant forall a :: a in groups ==> groups[a] == RecordsAt(records[..i], a)
    {
      var r := records[i];
      ghost var order0, groups0 := order, groups;
      if r.address !in groups {
        groups := groups[r.address := []];
        order := order + [r.address];
      }
      GroupStep(records, i, order0, groups0, order, groups);
      groups := groups[r.address := groups[r.address] + [r]];
    }
    assert records[..|records|] == records;
  }

  /** One step of the grouping loop at record `i`: once its address has a group, opened empty
      at the end of the key order when the address is new, appending the record to it gives
      the groups of the first `i + 1` records. */
  lemma GroupStep(records: seq<TokenUri>, i: nat, order: seq<Address>, groups: map<Address, seq<TokenUri>>,
                  order': seq<Address>, groups': map<Address, seq<TokenUri>>)
    requires i < |records|
    requires order == AddressesOf(records[..i])
    requires forall a :: a in groups <==> a in order
    requires forall a :: a in groups ==> groups[a] == RecordsAt(records[..i], a)
    requires records[i].address in groups ==> order' == order && groups' == groups
    requires records[i].address !in groups ==> order' == order + [records[i].address] && groups' == groups[records[i].address := []]
    ensures records[i].address in groups'
    ensures order' == AddressesOf(records[..i + 1])
    ensures forall a :: a in groups'[records[i].address := groups'[records[i].address] + [records[i]]] <==> a in order'
    ensures forall a :: a in groups' ==>
      groups'[records[i].address := groups'[records[i].address] + [records[i]]][a] == RecordsAt(records[..i + 1], a)
  {
    var prefix, r := records[..i], records[i];
    PrefixSnoc(records, i);
    AddressesOfSnoc(prefix, r);
    if r.address !in groups {
      RecordsAtUnlisted(prefix, r.address);
    }
    forall a | a in groups'
      ensures groups'[r.address := groups'[r.address] + [r]][a] == RecordsAt(prefix + [r], a)
    {
      RecordsAtSnoc(prefix, r, a);
    }
  }

  /** The groups of the addresses in `order`, one after the other. */
  function Gather(order: seq<Address>, records: seq<TokenUri>): seq<TokenUri>
  {
    if order == [] then [] else RecordsAt(records, order[0]) + Gather(order[1..], records)
  }

  /** Grouping partitions the input: the groups, taken together, hold every record exactly as
      often as the input does. */
  lemma {:induction false} GroupsPartition(records: seq<TokenUri>)
    ensures multiset(Gather(AddressesOf(records), records)) == multiset(records)
    decreases |records|
  {
    if records != [] {
      var init := records[..|records| - 1];
      var last := records[|records| - 1];
      assert records == init + [last];
      AddressesOfSnoc(init, last);
      GroupsPartition(init);
      var order := AddressesOf(init);
      GatherSnoc(order, init, last);
      if last.address !in order {
        GatherAppend(order, records, last.address);
        RecordsAtSnoc(init, last, last.address);
        RecordsAtUnlisted(init, last.address);
      }
    }
  }

  /** Helper for `GroupsPartition`: one more record adds it to the group of its address, if
      that address is listed (once) in `order`. */
  lemma {:induction false} GatherSnoc(order: seq<Address>, init: seq<TokenUri>, last: TokenUri)
    requires forall i, j :: 0 <= i < j < |order| ==> order[i] != order[j]
    ensures multiset(Gather(order, init + [last])) ==
      multiset(Gather(order, init)) + if last.address in order then multiset{last} else multiset{}
  {
    if order != [] {
      var a, rest := order[0], order[1..];
      DistinctTail(order);
      GatherSnoc(rest, init, last);
      RecordsAtSnoc(init, last, a);
      var here := if last.address == a then multiset{last} else multiset{};
      var there := if last.address in rest then multiset{last} else multiset{};
      assert multiset(RecordsAt(init + [last], a)) == multiset(RecordsAt(init, a)) + here;
      assert multiset(Gather(order, init + [last])) ==
        multiset(RecordsAt(init + [last], a)) + multiset(Gather(rest, init + [last]));
      assert multiset(Gather(order, init)) == multiset(RecordsAt(init, a)) + multiset(Gather(rest, init));
      assert here + there == if last.address in order then multiset{last} else multiset{};
    }
  }

  /** The tail of a list without repetitions has none either, and does not hold the head. */
  lemma DistinctTail(order: seq<Address>)
    requires order != []
    requires forall i, j :: 0 <= i < j < |order| ==> order[i] != order[j]
    ensures forall i, j :: 0 <= i < j < |order[1..]| ==> order[1..][i] != order[1..][j]
    ensures order[0] !in order[1..]
    ensures forall x :: x in order <==> x == order[0] || x in order[1..]
  {
    forall j | 0 <= j < |order[1..]|
      ensures order[1..][j] != order[0]
    {
      assert order[1..][j] == order[j + 1];
    }
    assert order == [order[0]] + order[1..];
  }

  /** Helper for `GroupsPartition`: listing one more address appends its group. */
  lemma {:induction false} GatherAppend(order: seq<Address>, records: seq<TokenUri>, a: Address)
    ensures Gather(order + [a], records) == Gather(order, records) + RecordsAt(records, a)
  {
    if order == [] {
      assert [a][1..] == [];
    } else {
      assert (order + [a])[1..] == order[1..] + [a];
      GatherAppend(order[1..], records, a);
    }
  }

  // ---------------------------------------------------------------- filtering

  /** The predicate "not kept by the sampler", as the function `Filter` takes. */
  function NotKept(kept: seq<TokenId>): TokenUri -> bool
  {
    (r: TokenUri) => r.tokenId !in kept
  }

  /** The comprehension that removes the kept tokens from an address's list. */
  function Pending(group: seq<TokenUri>, kept: seq<TokenId>): (work: seq<TokenUri>)
    ensures |work| <= |group|
  {
    FilterMembers(group, NotKept(kept));
    Filter(group, NotKept(kept))
  }

  /** The work list is the group with the kept tokens removed, in the group's order. */
  lemma PendingIsSelect(group: seq<TokenUri>, kept: seq<TokenId>)
    ensures exists keep: seq<bool> ::
      |keep| == |group| && Pending(group, kept) == Select(group, keep) &&
      forall i :: 0 <= i < |group| ==> keep[i] == (group[i].tokenId !in kept)
  {
    FilterIsSelect(group, NotKept(kept));
    var keep := FilterMask(group, NotKept(kept));
    assert |keep| == |group| && Pending(group, kept) == Select(group, keep);
  }

  /** A record is in the work list exactly when it is in the group and its id was not
      kept. */
  lemma PendingMembers(group: seq<TokenUri>, kept: seq<TokenId>)
    ensures forall r :: r in Pending(group, kept) <==> r in group && r.tokenId !in kept
  {
    FilterMembers(group, NotKept(kept));
  }

  /** The sampler's effect on the work list, for any rate and any draws: a token whose id was
      never parsed is always crawled, and a parsed token that is not flagged is never. */
  lemma WorkListRespectsFlags(group: seq<TokenUri>, alreadyParsed: seq<TokenId>, maybeUpdated: seq<TokenId>,
                              rate: real, draw: nat -> real, r: TokenUri)
    requires r in group
    ensures r.tokenId !in alreadyParsed ==> r in Pending(group, Sampler.Leak(alreadyParsed, rate, maybeUpdated, draw, 0))
    ensures r.tokenId in alreadyParsed && r.tokenId !in maybeUpdated ==>
      r !in Pending(group, Sampler.Leak(alreadyParsed, rate, maybeUpdated, draw, 0))
  {
    var kept := Sampler.Leak(alreadyParsed, rate, maybeUpdated, draw, 0);
    Sampler.LeakKeepsUnflagged(alreadyParsed, rate, maybeUpdated, draw, 0);
    PendingMembers(group, kept);
  }

  /** At rate 1 with draws in [0, 1) the work list is exactly the tokens never parsed or
      flagged as maybe updated. */
  lemma WorkListAtFullRate(group: seq<TokenUri>, alreadyParsed: seq<TokenId>, maybeUpdated: seq<TokenId>,
                           draw: nat -> real, r: TokenUri)
    requires forall k :: 0.0 <= draw(k) < 1.0
    ensures r in Pending(group, Sampler.Leak(alreadyParsed, 1.0, maybeUpdated, draw, 0)) <==>
      r in group && (r.tokenId !in alreadyParsed || r.tokenId in maybeUpdated)
  {
    Sampler.LeakAtFullRate(alreadyParsed, maybeUpdated, draw, 0);
    FilterMembers(alreadyParsed, Sampler.NotIn(maybeUpdated));
    PendingMembers(group, Sampler.Leak(alreadyParsed, 1.0, maybeUpdated, draw, 0));
  }

  // ---------------------------------------------------------------- chunking

  /** `xs` cut into consecutive slices of `n` items, the last possibly shorter. */
  function Chunks<T>(xs: seq<T>, n: nat): (chunks: seq<seq<T>>)
    requires n > 0
    ensures |chunks| <= |xs|
    decreases |xs|
  {
    if xs == [] then [] else if |xs| <= n then [xs] else [xs[..n]] + Chunks(xs[n..], n)
  }

  /** `[xs[i : i + n] for i in range(0, len(xs), n)]`: `range` raises for a zero step and is
      empty for a negative one. */
  function ChunkSlices<T>(xs: seq<T>, n: int): (r: Option<seq<seq<T>>>)
    ensures r.None? <==> n == 0
    ensures n < 0 ==> r == Some([])
    ensures n > 0 ==> r.Some? && Flatten(r.value) == xs
  {
    if n == 0 then None
    else if n < 0 then Some([])
    else
      ChunksPartition(xs, n);
      Some(Chunks(xs, n))
  }

  /** The chunks concatenate back to `xs`; every chunk but the last holds exactly `n` items
      and the last is non-empty; there are no chunks exactly when `xs` is empty. */
  lemma {:induction false} ChunksPartition<T>(xs: seq<T>, n: nat)
    requires n > 0
    ensures Flatten(Chunks(xs, n)) == xs
    ensures forall i :: 0 <= i < |Chunks(xs, n)| - 1 ==> |Chunks(xs, n)[i]| == n
    ensures forall i :: 0 <= i < |Chunks(xs, n)| ==> 0 < |Chunks(xs, n)[i]| <= n
    ensures Chunks(xs, n) == [] <==> xs == []
    decreases |xs|
  {
    if |xs| > n {
      ChunksPartition(xs[n..], n);
      var cs := Chunks(xs, n);
      assert cs[1..] == Chunks(xs[n..], n);
      assert xs == xs[..n] + xs[n..];
    } else if xs != [] {
      assert Chunks(xs, n) == [xs];
    }
  }

  /** There is one chunk per start index `0, n, 2n, ... < |xs|` of the comprehension's
      `range(0, len(xs), n)`: the last start index is below `|xs|` and the next is not. */
  lemma {:induction false} ChunkCount<T>(xs: seq<T>, n: nat)
    requires n > 0
    ensures xs == [] ==> Chunks(xs, n) == []
    ensures xs != [] ==> (|Chunks(xs, n)| - 1) * n < |xs| <= |Chunks(xs, n)| * n
    decreases |xs|
  {
    if |xs| > n {
      var rest := xs[n..];
      ChunkCount(rest, n);
      var c := |Chunks(rest, n)|;
      assert |Chunks(xs, n)| == c + 1;
      assert (c + 1) * n == c * n + n;
      assert (c - 1) * n + n == c * n;
    }
  }

  /** Chunk `k` is the slice `xs[k * n : k * n + n]` that the comprehension builds. */
  lemma {:induction false} ChunkAt<T>(xs: seq<T>, n: nat, k: nat)
    requires n > 0 && k < |Chunks(xs, n)|
    ensures k * n < |xs| && Chunks(xs, n)[k] == xs[k * n .. Min(k * n + n, |xs|)]
    decreases k
  {
    if k > 0 {
      var rest := xs[n..];
      assert Chunks(xs, n)[k] == Chunks(rest, n)[k - 1];
      ChunkAt(rest, n, k - 1);
      var m := (k - 1) * n;
      assert k * n == m + n;
      SliceOfDrop(xs, n, m, Min(m + n, |rest|));
    }
  }

  /** Slicing after dropping a prefix is slicing further along. */
  lemma SliceOfDrop<T>(xs: seq<T>, n: nat, lo: nat, hi: nat)
    requires n <= |xs| && lo <= hi <= |xs| - n
    ensures xs[n..][lo..hi] == xs[n + lo .. n + hi]
  {
  }

  function Min(a: int, b: int): int
  {
    if a <= b then a else b
  }
}
