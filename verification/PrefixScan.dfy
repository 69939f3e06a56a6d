/** The LMDB cursor behind a prefixed iterator: it visits exactly the keys with the prefix, in order, both ways. */
module PrefixScan {
  import opened Lmdb

  // ---------------------------------------------------------------- the order of keys

  predicate HasPrefix(k: Bytes, p: Bytes) { p <= k }

  /** Byte by byte, a shorter key before its extensions. */
  predicate Before(a: Bytes, b: Bytes)
    decreases |a|
  {
    b != [] && (a == [] || a[0] < b[0] || (a[0] == b[0] && Before(a[1..], b[1..])))
  }

  lemma {:induction false} BeforeTransitive(a: Bytes, b: Bytes, c: Bytes)
    requires Before(a, b) && Before(b, c)
    ensures Before(a, c)
    decreases |a|
  {
    if a != [] && a[0] == b[0] == c[0] {
      BeforeTransitive(a[1..], b[1..], c[1..]);
    }
  }

  lemma {:induction false} BeforeTotal(a: Bytes, b: Bytes)
    ensures a == b || Before(a, b) || Before(b, a)
    ensures !(Before(a, b) && Before(b, a)) && !Before(a, a)
    decreases |a|
  {
    if a != [] && b != [] && a[0] == b[0] {
      BeforeTotal(a[1..], b[1..]);
      assert a == [a[0]] + a[1..] && b == [b[0]] + b[1..];
    }
    if a != [] { BeforeTotal(a[1..], a[1..]); }
  }

  /** Keys with a prefix come at or after it. */
  lemma {:induction false} PrefixFirst(k: Bytes, p: Bytes)
    requires HasPrefix(k, p) && k != p
    ensures Before(p, k)
    decreases |p|
  {
    if p != [] {
      assert p[0] == k[0];
      PrefixFirst(k[1..], p[1..]);
    }
  }

  // ---------------------------------------------------------------- PrefixUpperBound

  predicate AllMax(p: Bytes) { forall i :: 0 <= i < |p| ==> p[i] == 255 }

  /** The last byte that can be raised is raised, the rest dropped. Fails exactly for a prefix of 0xff bytes. */
  method PrefixUpperBound(prefix: Bytes) returns (ok: bool, upper: Bytes)
    ensures ok <==> !AllMax(prefix)
    ensures ok ==> IsUpperBound(prefix, upper)
  {
    upper := prefix;
    while upper != []
      invariant upper <= prefix && AllMax(prefix[|upper|..])
      decreases |upper|
    {
      var last := |upper| - 1;
      if upper[last] != 255 {
        upper := upper[..last] + [upper[last] + 1];
        assert upper[..last] == prefix[..last] && AllMax(prefix[last + 1..]);
        assert prefix[last] != 255;
        return true, upper;
      }
      assert forall i :: last <= i < |prefix| ==> prefix[i] == 255 by {
        forall i | last <= i < |prefix| ensures prefix[i] == 255 {
          if i > last { assert prefix[i] == prefix[last + 1..][i - last - 1]; }
        }
      }
      upper := upper[..last];
    }
    ok := false;
  }

  /** `upper` is the prefix up to a byte that is one higher, after which the prefix had only 0xff. */
  ghost predicate IsUpperBound(prefix: Bytes, upper: Bytes) {
    var n := |upper| - 1;
    && 0 <= n < |prefix| && upper[..n] == prefix[..n]
    && prefix[n] < 255 && upper[n] == prefix[n] + 1 && AllMax(prefix[n + 1..])
  }

  /** The keys from the prefix up to the bound are exactly those with the prefix: it is the least such bound. */
  lemma {:induction false} BoundIsExact(prefix: Bytes, upper: Bytes, k: Bytes)
    requires IsUpperBound(prefix, upper)
    ensures HasPrefix(k, prefix) <==> !Before(k, prefix) && Before(k, upper)
    decreases |prefix|
  {
    BeforeTotal(k, prefix);
    if k == [] {
    } else if |upper| == 1 {
      LastByte(prefix, upper, k);
    } else {
      assert upper[0] == upper[..|upper| - 1][0] == prefix[..|upper| - 1][0] == prefix[0];
      if k[0] == prefix[0] {
        TailBound(prefix, upper);
        BoundIsExact(prefix[1..], upper[1..], k[1..]);
        assert HasPrefix(k, prefix) <==> HasPrefix(k[1..], prefix[1..]) by { PrefixTail(k, prefix); }
      }
    }
  }

  lemma PrefixTail(k: Bytes, p: Bytes)
    requires k != [] && p != [] && k[0] == p[0]
    ensures HasPrefix(k, p) <==> HasPrefix(k[1..], p[1..])
  {
    if HasPrefix(k[1..], p[1..]) {
      assert p == [p[0]] + p[1..] && k == [k[0]] + k[1..];
    }
    if HasPrefix(k, p) {
      assert k[1..][..|p| - 1] == p[1..];
    }
  }

  lemma TailBound(prefix: Bytes, upper: Bytes)
    requires IsUpperBound(prefix, upper) && |upper| > 1
    ensures IsUpperBound(prefix[1..], upper[1..])
  {
    var n := |upper| - 1;
    assert upper[1..][..n - 1] == upper[..n][1..] == prefix[..n][1..] == prefix[1..][..n - 1];
    assert prefix[1..][n..] == prefix[n + 1..];
  }

  lemma LastByte(prefix: Bytes, upper: Bytes, k: Bytes)
    requires IsUpperBound(prefix, upper) && |upper| == 1 && k != []
    ensures HasPrefix(k, prefix) <==> !Before(k, prefix) && Before(k, upper)
  {
    assert upper[0] == prefix[0] + 1 && AllMax(prefix[1..]);
    assert !Before(k[1..], upper[1..]);
    if k[0] == prefix[0] {
      PrefixTail(k, prefix);
      MaxPrefix(k[1..], prefix[1..]);
    }
  }

  /** Nothing but its extensions comes at or after a string of 0xff bytes. */
  lemma {:induction false} MaxPrefix(k: Bytes, p: Bytes)
    requires AllMax(p)
    ensures HasPrefix(k, p) <==> !Before(k, p)
    decreases |p|
  {
    if p != [] && k != [] && k[0] == 255 {
      assert AllMax(p[1..]);
      MaxPrefix(k[1..], p[1..]);
      PrefixTail(k, p);
    }
  }

  // ---------------------------------------------------------------- the iterator

  /** A database's keys as a cursor meets them. */
  ghost predicate Sorted(keys: seq<Bytes>) {
    forall i, j :: 0 <= i < j < |keys| ==> Before(keys[i], keys[j])
  }

  /** MDB_SET_RANGE: the first key at or after `k`. */
  ghost predicate AtRange(keys: seq<Bytes>, k: Bytes, i: nat) {
    && i <= |keys| && (forall j :: 0 <= j < i ==> Before(keys[j], k))
    && (forall j :: i <= j < |keys| ==> !Before(keys[j], k))
  }

  method SetRange(keys: seq<Bytes>, k: Bytes) returns (i: nat)
    requires Sorted(keys)
    ensures AtRange(keys, k, i)
  {
    i := 0;
    while i < |keys| && Before(keys[i], k)
      invariant i <= |keys| && forall j :: 0 <= j < i ==> Before(keys[j], k)
    {
      i := i + 1;
    }
    forall j | i <= j < |keys| ensures !Before(keys[j], k) {
      if j > i && Before(keys[j], k) { BeforeTransitive(keys[i], keys[j], k); }
    }
  }

  /** CLMDBIterator over a fixed snapshot: `at` is the cursor's place, of use only while `valid`. */
  class CLMDBIterator {
    const keys: seq<Bytes>
    const prefix: Bytes
    var at: int
    var valid: bool

    ghost predicate Valid()
      reads this
    {
      Sorted(keys) && (valid ==> 0 <= at < |keys| && HasPrefix(keys[at], prefix))
    }

    constructor (keys: seq<Bytes>, prefix: Bytes)
      requires Sorted(keys)
      ensures Valid() && !valid && this.keys == keys && this.prefix == prefix
    {
      this.keys, this.prefix := keys, prefix;
      at, valid := 0, false;
    }

    /** To the first key with the prefix, if there is one. */
    method SeekToFirst()
      requires Valid()
      modifies this
      ensures Valid() && (valid <==> exists j :: 0 <= j < |keys| && HasPrefix(keys[j], prefix))
      ensures valid ==> forall j :: 0 <= j < at ==> !HasPrefix(keys[j], prefix)
    {
      if prefix == [] {
        at, valid := 0, keys != [];
        return;
      }
      var i := SetRange(keys, prefix);
      at := i;
      valid := i < |keys| && HasPrefix(keys[i], prefix);
      FirstMatch(keys, prefix, i);
    }

    /** To the last key with the prefix, if there is one. */
    method SeekToLast()
      requires Valid()
      modifies this
      ensures Valid() && (valid <==> exists j :: 0 <= j < |keys| && HasPrefix(keys[j], prefix))
      ensures valid ==> forall j :: at < j < |keys| ==> !HasPrefix(keys[j], prefix)
    {
      var ok, upper := PrefixUpperBound(prefix);
      if prefix != [] && ok {
        var i := SetRange(keys, upper);
        at := i;
        at := at - 1;
        valid := at >= 0 && HasPrefix(keys[at], prefix);
        LastMatch(keys, prefix, upper, i);
        return;
      }
      at := |keys| - 1;
      valid := at >= 0 && HasPrefix(keys[at], prefix);
      LastMatchMax(keys, prefix);
    }

    /** To the first key with the prefix at or after `seekKey`, which counts as the prefix when it comes before. */
    method Seek(seekKey: Bytes)
      requires Valid()
      modifies this
      ensures Valid()
      ensures valid <==> exists j :: 0 <= j < |keys| && HasPrefix(keys[j], prefix) && !Before(keys[j], seekKey)
      ensures valid ==> !Before(keys[at], seekKey)
                        && forall j :: 0 <= j < at ==> !HasPrefix(keys[j], prefix) || Before(keys[j], seekKey)
    {
      var effective := if prefix != [] && Before(seekKey, prefix) then prefix else seekKey;
      var i := SetRange(keys, effective);
      at := i;
      valid := i < |keys| && HasPrefix(keys[i], prefix);
      SeekMatch(keys, prefix, seekKey, i);
    }

    /** To the previous key with the prefix: no match lies between. */
    method Prev()
      requires Valid()
      modifies this
      ensures Valid()
      ensures !old(valid) ==> !valid
      ensures valid ==> at == old(at) - 1
      ensures old(valid) && !valid ==> forall j :: 0 <= j < old(at) ==> !HasPrefix(keys[j], prefix)
    {
      if !valid {
        return;
      }
      ghost var was := at;
      at := at - 1;
      valid := at >= 0 && HasPrefix(keys[at], prefix);
      if !valid { NoMatchBefore(keys, prefix, was); }
    }

    /** To the next key with the prefix: no match lies between. */
    method Next()
      requires Valid()
      modifies this
      ensures Valid()
      ensures !old(valid) ==> !valid
      ensures valid ==> at == old(at) + 1
      ensures old(valid) && !valid ==> forall j :: old(at) < j < |keys| ==> !HasPrefix(keys[j], prefix)
    {
      if !valid {
        return;
      }
      ghost var was := at;
      at := at + 1;
      valid := at < |keys| && HasPrefix(keys[at], prefix);
      if !valid { NoMatchAfter(keys, prefix, was); }
    }
  }

  lemma FirstMatch(keys: seq<Bytes>, prefix: Bytes, i: nat)
    requires Sorted(keys) && AtRange(keys, prefix, i)
    ensures forall j :: 0 <= j < i ==> !HasPrefix(keys[j], prefix)
    ensures (exists j :: 0 <= j < |keys| && HasPrefix(keys[j], prefix)) ==> i < |keys| && HasPrefix(keys[i], prefix)
  {
    forall j | 0 <= j < i ensures !HasPrefix(keys[j], prefix) {
      NotBeforePrefix(keys[j], prefix);
    }
    if exists j :: 0 <= j < |keys| && HasPrefix(keys[j], prefix) {
      var j :| 0 <= j < |keys| && HasPrefix(keys[j], prefix);
      NoGap(keys, prefix, i, j);
    }
  }

  lemma NotBeforePrefix(k: Bytes, p: Bytes)
    ensures HasPrefix(k, p) ==> !Before(k, p)
  {
    BeforeTotal(k, p);
    if HasPrefix(k, p) && k != p { PrefixFirst(k, p); }
  }

  /** A key between the prefix and a key with the prefix has the prefix too. */
  lemma NoGap(keys: seq<Bytes>, p: Bytes, i: nat, j: nat)
    requires Sorted(keys) && i <= j < |keys| && !Before(keys[i], p) && HasPrefix(keys[j], p)
    ensures HasPrefix(keys[i], p)
  {
    var ok, upper := UpperOf(p);
    if ok {
      BoundIsExact(p, upper, keys[i]);
      BoundIsExact(p, upper, keys[j]);
      if i < j { BeforeTransitive(keys[i], keys[j], upper); }
    } else {
      MaxPrefix(keys[i], p);
    }
  }

  /** The bound as a value, for proofs. */
  lemma {:induction false} UpperOf(prefix: Bytes) returns (ok: bool, upper: Bytes)
    ensures ok <==> !AllMax(prefix)
    ensures ok ==> IsUpperBound(prefix, upper)
    decreases |prefix|
  {
    upper := [];
    if prefix == [] {
      return false, [];
    }
    var u;
    ok, u := UpperOf(prefix[1..]);
    assert prefix == [prefix[0]] + prefix[1..];
    if ok {
      upper := [prefix[0]] + u;
      var n := |u| - 1;
      assert upper[..n + 1] == [prefix[0]] + u[..n] && prefix[..n + 1] == [prefix[0]] + prefix[1..][..n];
      assert prefix[n + 2..] == prefix[1..][n + 1..];
    } else if prefix[0] != 255 {
      ok, upper := true, [prefix[0] + 1];
    }
  }

  lemma LastMatch(keys: seq<Bytes>, prefix: Bytes, upper: Bytes, i: nat)
    requires Sorted(keys) && IsUpperBound(prefix, upper) && AtRange(keys, upper, i)
    ensures forall j :: i <= j < |keys| ==> !HasPrefix(keys[j], prefix)
    ensures (exists j :: 0 <= j < |keys| && HasPrefix(keys[j], prefix)) ==> i > 0 && HasPrefix(keys[i - 1], prefix)
  {
    forall j | 0 <= j < |keys| ensures HasPrefix(keys[j], prefix) <==> !Before(keys[j], prefix) && Before(keys[j], upper) {
      BoundIsExact(prefix, upper, keys[j]);
    }
    if exists j :: 0 <= j < |keys| && HasPrefix(keys[j], prefix) {
      var j :| 0 <= j < |keys| && HasPrefix(keys[j], prefix);
      assert j < i;
      NotBeforeLater(keys, prefix, j, i - 1);
    }
  }

  lemma NotBeforeLater(keys: seq<Bytes>, p: Bytes, i: nat, j: nat)
    requires Sorted(keys) && i <= j < |keys| && !Before(keys[i], p)
    ensures !Before(keys[j], p)
  {
    if i < j && Before(keys[j], p) { BeforeTransitive(keys[i], keys[j], p); }
  }

  lemma LastMatchMax(keys: seq<Bytes>, prefix: Bytes)
    requires Sorted(keys) && AllMax(prefix)
    ensures (exists j :: 0 <= j < |keys| && HasPrefix(keys[j], prefix)) ==> HasPrefix(keys[|keys| - 1], prefix)
  {
    if exists j :: 0 <= j < |keys| && HasPrefix(keys[j], prefix) {
      var j :| 0 <= j < |keys| && HasPrefix(keys[j], prefix);
      MaxPrefix(keys[j], prefix);
      NotBeforeLater(keys, prefix, j, |keys| - 1);
      MaxPrefix(keys[|keys| - 1], prefix);
    }
  }

  lemma NoMatchBefore(keys: seq<Bytes>, prefix: Bytes, i: nat)
    requires Sorted(keys) && i < |keys| && HasPrefix(keys[i], prefix)
    requires i > 0 ==> !HasPrefix(keys[i - 1], prefix)
    ensures forall j :: 0 <= j < i ==> !HasPrefix(keys[j], prefix)
  {
    forall j | 0 <= j < i ensures !HasPrefix(keys[j], prefix) {
      if HasPrefix(keys[j], prefix) {
        NotBeforePrefix(keys[j], prefix);
        NotBeforeLater(keys, prefix, j, i - 1);
        NoGap(keys, prefix, i - 1, i);
      }
    }
  }

  lemma SeekMatch(keys: seq<Bytes>, prefix: Bytes, seekKey: Bytes, i: nat)
    requires Sorted(keys) && AtRange(keys, if prefix != [] && Before(seekKey, prefix) then prefix else seekKey, i)
    ensures i < |keys| ==> !Before(keys[i], seekKey)
    ensures forall j :: 0 <= j < i ==> !HasPrefix(keys[j], prefix) || Before(keys[j], seekKey)
    ensures (exists j :: 0 <= j < |keys| && HasPrefix(keys[j], prefix) && !Before(keys[j], seekKey)) ==>
              i < |keys| && HasPrefix(keys[i], prefix)
  {
    var low := prefix != [] && Before(seekKey, prefix);
    forall j | 0 <= j < |keys| ensures low && Before(keys[j], seekKey) ==> Before(keys[j], prefix) {
      if low && Before(keys[j], seekKey) { BeforeTransitive(keys[j], seekKey, prefix); }
    }
    forall j | 0 <= j < i ensures !HasPrefix(keys[j], prefix) || Before(keys[j], seekKey) {
      NotBeforePrefix(keys[j], prefix);
    }
    if exists j :: 0 <= j < |keys| && HasPrefix(keys[j], prefix) && !Before(keys[j], seekKey) {
      var j :| 0 <= j < |keys| && HasPrefix(keys[j], prefix) && !Before(keys[j], seekKey);
      NotBeforePrefix(keys[j], prefix);
      assert i <= j;
      if !low { BeforeTotal(seekKey, prefix); AtLeast(keys[i], seekKey, prefix); }
      NoGap(keys, prefix, i, j);
    }
  }

  lemma AtLeast(k: Bytes, a: Bytes, p: Bytes)
    requires !Before(k, a) && (!Before(a, p) || p == [])
    ensures !Before(k, p)
  {
    BeforeTotal(a, p);
    BeforeTotal(k, a);
    if Before(k, p) && p != [] {
      if a != p { BeforeTransitive(k, p, a); }
    }
  }

  lemma NoMatchAfter(keys: seq<Bytes>, prefix: Bytes, i: nat)
    requires Sorted(keys) && i < |keys| && HasPrefix(keys[i], prefix)
    requires i + 1 < |keys| ==> !HasPrefix(keys[i + 1], prefix)
    ensures forall j :: i < j < |keys| ==> !HasPrefix(keys[j], prefix)
  {
    forall j | i < j < |keys| ensures !HasPrefix(keys[j], prefix) {
      if HasPrefix(keys[j], prefix) {
        NotBeforePrefix(keys[i], prefix);
        NotBeforeLater(keys, prefix, i, i + 1);
        NoGap(keys, prefix, i + 1, j);
      }
    }
  }

  /** A scan as the node makes it: exactly the keys with the prefix, in order. */
  method Scan(keys: seq<Bytes>, prefix: Bytes) returns (found: seq<Bytes>)
    requires Sorted(keys)
    ensures Sorted(found) && forall k :: k in found <==> k in keys && HasPrefix(k, prefix)
  {
    var it := new CLMDBIterator(keys, prefix);
    it.SeekToFirst();
    found := [];
    ghost var first := it.at;
    while it.valid
      invariant it.Valid() && it.keys == keys && it.prefix == prefix
      invariant it.valid ==> first <= it.at && found == keys[first..it.at]
      invariant it.valid ==> forall j :: 0 <= j < |keys| && HasPrefix(keys[j], prefix) ==> j >= first
      invariant !it.valid ==> forall j :: 0 <= j < |keys| && HasPrefix(keys[j], prefix) ==> keys[j] in found
      invariant forall k :: k in found ==> k in keys && HasPrefix(k, prefix)
      invariant Sorted(found)
      decreases if it.valid then |keys| - it.at else -1
    {
      assert keys[first..it.at + 1] == keys[first..it.at] + [keys[it.at]];
      found := found + [keys[it.at]];
      it.Next();
    }
  }
}
