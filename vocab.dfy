/**
 * The contract of lenskit's `Vocabulary`: an immutable, sorted, duplicate-free
 * sequence of entity identifiers whose positions are the dense numbers used to
 * index the rating matrix. Identifiers are modelled as integers; any totally
 * ordered key type behaves the same.
 */
module Vocab {
  import opened Results

  /** How `number` reports a key that is not in the vocabulary. */
  datatype MissingMode = Error | Negative

  /** The exceptions a lookup can raise. */
  datatype LookupError = KeyError | IndexError

  /** The vocabulary; `index` is its sorted list of distinct identifiers. */
  datatype Vocabulary = Vocabulary(index: seq<int>)

  predicate StrictlySorted(s: seq<int>) {
    forall i, j :: 0 <= i < j < |s| ==> s[i] < s[j]
  }

  /** The set of elements of a sequence. */
  function Keys(s: seq<int>): set<int> {
    set x | x in s
  }

  predicate Valid(v: Vocabulary) {
    StrictlySorted(v.index)
  }

  /** Number of elements of `s` smaller than `k`: `k`'s rank in sorted order. */
  function CountBelow(s: seq<int>, k: int): nat {
    if s == [] then 0
    else (if s[0] < k then 1 else 0) + CountBelow(s[1..], k)
  }

  // ---------------------------------------------------------------------
  // Construction

  /** Inserts `k` into a sorted duplicate-free sequence, dropping it if present. */
  function Insert(s: seq<int>, k: int): (r: seq<int>)
    requires StrictlySorted(s)
    ensures StrictlySorted(r)
    ensures Keys(r) == Keys(s) + {k}
    ensures |r| == if k in s then |s| else |s| + 1
    ensures r != [] && (s != [] ==> r[0] == s[0] || r[0] == k)
  {
    if s == [] then [k]
    else if k < s[0] then [k] + s
    else if k == s[0] then s
    else
      var t := Insert(s[1..], k);
      InsertBehind(s, k, t);
      [s[0]] + t
  }

  /** Inserting a key larger than the head of `s` into its tail keeps the head in front. */
  lemma InsertBehind(s: seq<int>, k: int, t: seq<int>)
    requires StrictlySorted(s) && s != [] && s[0] < k
    requires StrictlySorted(t) && Keys(t) == Keys(s[1..]) + {k}
    requires |t| == if k in s[1..] then |s| - 1 else |s|
    ensures StrictlySorted([s[0]] + t)
    ensures Keys([s[0]] + t) == Keys(s) + {k}
    ensures |[s[0]] + t| == if k in s then |s| else |s| + 1
  {
    assert Keys([s[0]] + t) == {s[0]} + Keys(t);
    assert Keys(s) == {s[0]} + Keys(s[1..]);
    assert k in s <==> k in s[1..];
    forall y | y in t
      ensures s[0] < y
    {
      assert y in Keys(t);
    }
    ConsSorted(s[0], t);
  }

  /** A key smaller than every element of a sorted sequence can go in front of it. */
  lemma ConsSorted(x: int, t: seq<int>)
    requires StrictlySorted(t) && forall y :: y in t ==> x < y
    ensures StrictlySorted([x] + t)
  {
    forall i, j | 0 <= i < j < |[x] + t|
      ensures ([x] + t)[i] < ([x] + t)[j]
    {
      if i > 0 {
        assert ([x] + t)[i] == t[i - 1];
      }
      assert ([x] + t)[j] == t[j - 1] && t[j - 1] in t;
    }
  }

  /** The distinct keys of `keys`, in ascending order. */
  function SortedDistinct(keys: seq<int>): (r: seq<int>)
    ensures StrictlySorted(r)
    ensures Keys(r) == Keys(keys)
  {
    if keys == [] then []
    else Insert(SortedDistinct(keys[..|keys| - 1]), keys[|keys| - 1])
  }

  lemma {:induction false} DistinctCard(s: seq<int>)
    requires StrictlySorted(s)
    ensures |Keys(s)| == |s|
  {
    if s != [] {
      DistinctCard(s[1..]);
      assert Keys(s) == {s[0]} + Keys(s[1..]);
      assert s[0] !in s[1..];
    }
  }

  /** `Vocabulary(keys)`: duplicates are dropped and the keys sorted. */
  function Create(keys: seq<int>): (v: Vocabulary)
    ensures Valid(v)
    ensures Keys(v.index) == Keys(keys)
    ensures Size(v) == |Keys(keys)|
  {
    var s := SortedDistinct(keys);
    DistinctCard(s);
    Vocabulary(s)
  }

  /** `size` and `len(vocab)`: the number of distinct keys. */
  function Size(v: Vocabulary): (r: nat)
    ensures Valid(v) ==> r == |Keys(v.index)|
  {
    assert Valid(v) ==> |v.index| == |Keys(v.index)| by {
      if Valid(v) {
        DistinctCard(v.index);
      }
    }
    |v.index|
  }

  /**
   * A sorted, duplicate-free sequence is determined by its set of elements,
   * so `index` equals `sorted(set(keys))` however that is computed.
   */
  lemma {:induction false} SortedUnique(a: seq<int>, b: seq<int>)
    requires StrictlySorted(a) && StrictlySorted(b)
    requires Keys(a) == Keys(b)
    ensures a == b
  {
    assert a != [] ==> a[0] in Keys(b);
    assert b != [] ==> b[0] in Keys(a);
    if a != [] && b != [] {
      assert a[0] == b[0] by {
        assert a[0] in Keys(b) && b[0] in Keys(a);
      }
      assert Keys(a[1..]) == Keys(b[1..]) by {
        forall x | x in a[1..] ensures x in b[1..] {
          assert x in Keys(a) && x != a[0];
          assert x in b && x != b[0];
        }
        forall x | x in b[1..] ensures x in a[1..] {
          assert x in Keys(b) && x != b[0];
          assert x in a && x != a[0];
        }
      }
      SortedUnique(a[1..], b[1..]);
      assert a == [a[0]] + a[1..] && b == [b[0]] + b[1..];
    }
  }

  /** The vocabulary of any key list is the ascending list of its distinct keys. */
  lemma CreateIsSortedKeys(keys: seq<int>, sorted: seq<int>)
    requires StrictlySorted(sorted)
    requires Keys(sorted) == Keys(keys)
    ensures Create(keys).index == sorted
  {
    SortedUnique(Create(keys).index, sorted);
  }

  // ---------------------------------------------------------------------
  // Lookups

  /** Position of `k` in `s`, or -1 when it is absent. */
  function IndexOf(s: seq<int>, k: int): (r: int)
    ensures -1 <= r < |s|
    ensures r < 0 <==> k !in s
    ensures r >= 0 ==> s[r] == k && k !in s[..r]
  {
    if s == [] then -1
    else if s[0] == k then 0
    else
      var t := IndexOf(s[1..], k);
      if t < 0 then -1
      else
        assert s[..t + 1] == [s[0]] + s[1..][..t];
        t + 1
  }

  /** `number(key, missing=...)`: the key's position. */
  function Number(v: Vocabulary, k: int, missing: MissingMode): (r: Result<int, LookupError>)
    ensures k in v.index ==> r.Ok? && 0 <= r.value < Size(v) && v.index[r.value] == k
    ensures k !in v.index && missing == Negative ==> r.Ok? && r.value < 0
    ensures k !in v.index && missing == Error ==> r == Err(KeyError)
  {
    var i := IndexOf(v.index, k);
    if i >= 0 then Ok(i)
    else if missing == Negative then Ok(-1)
    else Err(KeyError)
  }

  /** `term(n)`: the key at position `n`; negative positions do not wrap. */
  function Term(v: Vocabulary, n: int): (r: Result<int, LookupError>)
    ensures r.Ok? <==> 0 <= n < Size(v)
    ensures r.Ok? ==> r.value in v.index
    ensures r.Err? ==> r.error == IndexError
  {
    if 0 <= n < |v.index| then Ok(v.index[n]) else Err(IndexError)
  }

  /** `number` inverts `term` on every valid position. */
  lemma NumberOfTerm(v: Vocabulary, n: int, missing: MissingMode)
    requires Valid(v)
    requires 0 <= n < Size(v)
    ensures Term(v, n).Ok? && Number(v, Term(v, n).value, missing) == Ok(n)
  {
  }

  /** `term` inverts `number` on every key of the vocabulary. */
  lemma TermOfNumber(v: Vocabulary, k: int, missing: MissingMode)
    requires k in v.index
    ensures Number(v, k, missing).Ok? && Term(v, Number(v, k, missing).value) == Ok(k)
  {
  }

  lemma {:induction false} CountBelowPrefix(s: seq<int>, i: nat)
    requires StrictlySorted(s)
    requires i < |s|
    ensures CountBelow(s, s[i]) == i
  {
    if i > 0 {
      CountBelowPrefix(s[1..], i - 1);
      assert s[1..][i - 1] == s[i];
      assert s[0] < s[i];
    } else {
      CountBelowNone(s[1..], s[0]);
    }
  }

  lemma {:induction false} CountBelowNone(s: seq<int>, k: int)
    requires forall j :: 0 <= j < |s| ==> s[j] >= k
    ensures CountBelow(s, k) == 0
  {
    if s != [] {
      CountBelowNone(s[1..], k);
    }
  }

  /** `number(k)` is the count of vocabulary keys smaller than `k`. */
  lemma NumberIsRank(v: Vocabulary, k: int, missing: MissingMode)
    requires Valid(v)
    requires k in v.index
    ensures Number(v, k, missing) == Ok(CountBelow(v.index, k))
  {
    CountBelowPrefix(v.index, Number(v, k, missing).value);
  }

  /** `numbers(lookup, missing=...)`: `number` applied to every key in order. */
  function Numbers(v: Vocabulary, lookup: seq<int>, missing: MissingMode): (r: Result<seq<int>, LookupError>)
    ensures missing == Negative ==> r.Ok?
    ensures r.Ok? <==> missing == Negative || forall k :: k in lookup ==> k in v.index
    ensures r.Err? ==> r.error == KeyError
    ensures r.Ok? ==> |r.value| == |lookup|
    ensures r.Ok? ==> forall i :: 0 <= i < |lookup| ==>
      (r.value[i] < 0 ==> lookup[i] !in v.index) &&
      (r.value[i] >= 0 ==> r.value[i] < Size(v) && v.index[r.value[i]] == lookup[i])
  {
    if lookup == [] then Ok([])
    else
      match Number(v, lookup[0], missing)
      case Err(e) => Err(e)
      case Ok(n) =>
        match Numbers(v, lookup[1..], missing)
        case Err(e) => Err(e)
        case Ok(rest) =>
          assert forall k :: k in lookup ==> k == lookup[0] || k in lookup[1..];
          Ok([n] + rest)
  }

  /** Every in-range position of `terms`' input, as `term` gives it. */
  predicate AllPositions(v: Vocabulary, lookup: seq<int>) {
    forall i :: 0 <= i < |lookup| ==> 0 <= lookup[i] < Size(v)
  }

  /** `terms(lookup)` for in-range positions: the key at each position, in order. */
  function Terms(v: Vocabulary, lookup: seq<int>): (r: seq<int>)
    requires AllPositions(v, lookup)
    ensures |r| == |lookup|
    ensures forall i :: 0 <= i < |lookup| ==> Term(v, lookup[i]) == Ok(r[i])
  {
    seq(|lookup|, i requires 0 <= i < |lookup| => v.index[lookup[i]])
  }

  /** Looking up the keys of a vocabulary's own positions gives those positions back. */
  lemma {:induction false} NumbersOfTerms(v: Vocabulary, lookup: seq<int>, missing: MissingMode)
    requires Valid(v)
    requires AllPositions(v, lookup)
    ensures Numbers(v, Terms(v, lookup), missing) == Ok(lookup)
  {
    var ks := Terms(v, lookup);
    var r := Numbers(v, ks, missing);
    assert forall k :: k in ks ==> k in v.index;
    assert r.Ok? && |r.value| == |lookup|;
    forall i | 0 <= i < |lookup|
      ensures r.value[i] == lookup[i]
    {
      NumberOfTerm(v, lookup[i], missing);
    }
    assert r.value == lookup;
  }
}
