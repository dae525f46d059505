/** Optional values and fallible results, used by every module of the model in
    the places where the Rust code returns `Option<T>` or `Result<T, E>`. */
module Common {

  datatype Option<+T> = None | Some(value: T) {
    function GetOr(default: T): T {
      match this
      case Some(v) => v
      case None => default
    }
  }

  datatype Result<+T, +E> = Ok(value: T) | Err(error: E)

  function Max(a: int, b: int): int { if a < b then b else a }

  function Min(a: int, b: int): int { if a < b then a else b }

  /** Rust's `u8` and `i32` ranges, for the values whose width matters. */
  type u8 = x: int | 0 <= x < 0x100
  type i32 = x: int | -0x8000_0000 <= x < 0x8000_0000

  /** How many elements of `s` satisfy `keep`. */
  function CountWhere<T>(s: seq<T>, keep: T -> bool): (n: nat)
    ensures n <= |s|
  {
    if s == [] then 0 else (if keep(s[0]) then 1 else 0) + CountWhere(s[1..], keep)
  }

  /** Counting over a prefix of a non-empty sequence: the first element, then
      the matching prefix of the rest. */
  lemma CountWherePrefixes<T>(s: seq<T>, keep: T -> bool)
    requires s != []
    ensures CountWhere(s[..0], keep) == 0
    ensures forall k :: 0 < k <= |s| ==>
      CountWhere(s[..k], keep) == (if keep(s[0]) then 1 else 0) + CountWhere(s[1..][..k - 1], keep)
  {
    forall k | 0 < k <= |s|
      ensures CountWhere(s[..k], keep) == (if keep(s[0]) then 1 else 0) + CountWhere(s[1..][..k - 1], keep)
    {
      assert s[..k][1..] == s[1..][..k - 1];
    }
  }

  /** `r` holds, in order, exactly the elements of `s` that satisfy `keep`:
      there are as many of them, and an element of `s` that is kept lands at
      the position given by the number of elements kept before it. */
  ghost predicate Kept<T>(r: seq<T>, s: seq<T>, keep: T -> bool) {
    && |r| == CountWhere(s, keep)
    && forall k :: 0 <= k < |s| && keep(s[k]) ==>
      CountWhere(s[..k], keep) < |r| && r[CountWhere(s[..k], keep)] == s[k]
  }

  /** As `Kept`, with each kept element transformed by `f`. */
  ghost predicate KeptMapped<T, U>(r: seq<U>, s: seq<T>, keep: T -> bool, f: T -> U) {
    && |r| == CountWhere(s, keep)
    && forall k :: 0 <= k < |s| && keep(s[k]) ==>
      CountWhere(s[..k], keep) < |r| && r[CountWhere(s[..k], keep)] == f(s[k])
  }

  /** Filtering a non-empty sequence: the first element if it is kept, then
      the filtered rest. */
  lemma KeptCons<T>(s: seq<T>, rest: seq<T>, keep: T -> bool)
    requires s != [] && Kept(rest, s[1..], keep)
    ensures Kept(if keep(s[0]) then [s[0]] + rest else rest, s, keep)
  {
    CountWherePrefixes(s, keep);
    var r := if keep(s[0]) then [s[0]] + rest else rest;
    forall k | 0 <= k < |s| && keep(s[k])
      ensures CountWhere(s[..k], keep) < |r| && r[CountWhere(s[..k], keep)] == s[k]
    {
      if k > 0 {
        assert s[k] == s[1..][k - 1];
      }
    }
  }

  /** As `KeptCons`, with each kept element transformed by `f`. */
  lemma KeptMappedCons<T, U>(s: seq<T>, rest: seq<U>, keep: T -> bool, f: T -> U)
    requires s != [] && KeptMapped(rest, s[1..], keep, f)
    ensures KeptMapped(if keep(s[0]) then [f(s[0])] + rest else rest, s, keep, f)
  {
    CountWherePrefixes(s, keep);
    var r := if keep(s[0]) then [f(s[0])] + rest else rest;
    forall k | 0 <= k < |s| && keep(s[k])
      ensures CountWhere(s[..k], keep) < |r| && r[CountWhere(s[..k], keep)] == f(s[k])
    {
      if k > 0 {
        assert s[k] == s[1..][k - 1];
      }
    }
  }

  /** One more element of a prefix. */
  lemma PrefixStep<T>(s: seq<T>, i: nat)
    requires i < |s|
    ensures s[..i + 1][..i] == s[..i] && s[..i + 1] == s[..i] + [s[i]]
  {
  }
}
