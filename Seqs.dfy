/** Sequence helpers shared by the sampler, the work-list pipeline and the writer. */
module Seqs {

  /** The elements of `s` whose position is marked in `keep`, in their original order:
      every order-preserving subsequence of `s` is `Select(s, keep)` for some mask. */
  function Select<T>(s: seq<T>, keep: seq<bool>): (r: seq<T>)
    requires |keep| == |s|
    ensures |r| <= |s|
    ensures forall i :: 0 <= i < |r| ==> r[i] in s
  {
    if s == [] then [] else (if keep[0] then [s[0]] else []) + Select(s[1..], keep[1..])
  }

  /** The elements of `s` that satisfy `p`, in their original order (a list comprehension
      with an `if` clause). */
  function Filter<T>(s: seq<T>, p: T -> bool): seq<T>
  {
    if s == [] then [] else (if p(s[0]) then [s[0]] else []) + Filter(s[1..], p)
  }

  /** An element is in the filtered sequence exactly when it is in `s` and satisfies `p`. */
  lemma {:induction false} FilterMembers<T>(s: seq<T>, p: T -> bool)
    ensures |Filter(s, p)| <= |s|
    ensures forall i :: 0 <= i < |Filter(s, p)| ==> Filter(s, p)[i] in s && p(Filter(s, p)[i])
    ensures forall i :: 0 <= i < |s| && p(s[i]) ==> s[i] in Filter(s, p)
  {
    if s != [] {
      FilterMembers(s[1..], p);
      var r := Filter(s, p);
      var head := if p(s[0]) then [s[0]] else [];
      assert r == head + Filter(s[1..], p);
      forall i | 0 <= i < |s| && p(s[i])
        ensures s[i] in r
      {
        if i > 0 {
          assert s[i] == s[1..][i - 1];
        }
      }
    }
  }

  /** The mask that `Filter` applies. */
  function FilterMask<T>(s: seq<T>, p: T -> bool): seq<bool>
  {
    seq(|s|, i requires 0 <= i < |s| => p(s[i]))
  }

  /** Filtering keeps the order: it selects exactly the positions whose element satisfies `p`. */
  lemma {:induction false} FilterIsSelect<T>(s: seq<T>, p: T -> bool)
    ensures Filter(s, p) == Select(s, FilterMask(s, p))
  {
    if s != [] {
      FilterIsSelect(s[1..], p);
      assert FilterMask(s, p)[1..] == FilterMask(s[1..], p);
    }
  }

  /** Filtering a sequence extended at the end extends the filtered sequence the same way. */
  lemma {:induction false} FilterSnoc<T>(s: seq<T>, x: T, p: T -> bool)
    ensures Filter(s + [x], p) == Filter(s, p) + (if p(x) then [x] else [])
  {
    var tail := if p(x) then [x] else [];
    if s == [] {
      assert [x][1..] == [];
    } else {
      var head := if p(s[0]) then [s[0]] else [];
      calc {
        Filter(s + [x], p);
        { assert (s + [x])[0] == s[0];
          assert (s + [x])[1..] == s[1..] + [x]; }
        head + Filter(s[1..] + [x], p);
        { FilterSnoc(s[1..], x, p); }
        head + (Filter(s[1..], p) + tail);
        (head + Filter(s[1..], p)) + tail;
        Filter(s, p) + tail;
      }
    }
  }

  /** A prefix one longer is the prefix extended by the next element. */
  lemma PrefixSnoc<T>(s: seq<T>, i: nat)
    requires i < |s|
    ensures s[..i + 1] == s[..i] + [s[i]]
  {
  }

  /** The suffix from `i`, without its first element, is the suffix from `i + 1`. */
  lemma SuffixTail<T>(s: seq<T>, i: nat)
    requires i < |s|
    ensures s[i..][1..] == s[i + 1..]
  {
  }

  /** Concatenation of a sequence of sequences. */
  function Flatten<T>(ss: seq<seq<T>>): seq<T>
  {
    if ss == [] then [] else ss[0] + Flatten(ss[1..])
  }
}
