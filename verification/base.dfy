/** Small failure-carrying datatypes shared by every module of the model. */
module Base {

  /** A value that may be absent: a SQL NULL, a missing file, an empty drop event. */
  datatype Option<+T> = None | Some(value: T)

  /** The outcome of a Python call that either returns a value or raises. */
  datatype Result<+T> = Ok(value: T) | Err(error: string)

  /** `0 <= i < n` as a sequence, the `range(n)` of Python. */
  function Range(n: nat): (r: seq<nat>)
    ensures |r| == n
    ensures forall i :: 0 <= i < n ==> r[i] == i
  {
    seq(n, i => i)
  }

  /** The first `n` elements of `s`, or all of them when `s` is shorter (`s[:n]`, `slice(0, n)`). */
  function Take<T>(s: seq<T>, n: nat): (r: seq<T>)
    ensures |r| == if n < |s| then n else |s|
    ensures forall i :: 0 <= i < |r| ==> r[i] == s[i]
  {
    if n < |s| then s[..n] else s
  }

  /**
   * `{keys[i]: vals[i] for i in range(len(keys))}`: a dict comprehension in
   * which a later duplicate key overwrites an earlier one.
   */
  function ZipMap<K(==), V>(keys: seq<K>, vals: seq<V>): (m: map<K, V>)
    requires |keys| <= |vals|
    ensures forall i :: 0 <= i < |keys| ==> keys[i] in m
    ensures forall k :: k in m ==>
              exists i :: 0 <= i < |keys| && keys[i] == k && m[k] == vals[i]
                          && forall j :: i < j < |keys| ==> keys[j] != k
  {
    if |keys| == 0 then map[]
    else
      var n := |keys| - 1;
      var prefix := ZipMap(keys[..n], vals);
      assert forall k :: k in prefix && k != keys[n] ==>
          exists i :: 0 <= i < |keys| && keys[i] == k && prefix[k] == vals[i]
                      && forall j :: i < j < |keys| ==> keys[j] != k
        by {
        forall k | k in prefix && k != keys[n]
          ensures exists i :: 0 <= i < |keys| && keys[i] == k && prefix[k] == vals[i]
                              && forall j :: i < j < |keys| ==> keys[j] != k
        {
          var i :| 0 <= i < n && keys[..n][i] == k && prefix[k] == vals[i]
                   && forall j :: i < j < n ==> keys[..n][j] != k;
          assert forall j :: i < j < |keys| ==> keys[j] != k by {
            forall j | i < j < |keys| ensures keys[j] != k {
              if j < n { assert keys[..n][j] == keys[j]; }
            }
          }
        }
      }
      prefix[keys[n] := vals[n]]
  }

  predicate Distinct<T(==)>(s: seq<T>) {
    forall i, j :: 0 <= i < j < |s| ==> s[i] != s[j]
  }

  /** With distinct keys every key is mapped to the value at its own position. */
  lemma {:induction false} ZipMapDistinct<K, V>(keys: seq<K>, vals: seq<V>)
    requires |keys| <= |vals|
    ensures Distinct(keys) ==> forall i :: 0 <= i < |keys| ==> ZipMap(keys, vals)[keys[i]] == vals[i]
  {
    if |keys| > 0 && Distinct(keys) {
      var n := |keys| - 1;
      ZipMapDistinct(keys[..n], vals);
      forall i | 0 <= i < n
        ensures ZipMap(keys, vals)[keys[i]] == vals[i]
      {
        assert keys[..n][i] == keys[i] != keys[n];
      }
    }
  }
}
