/** Small building blocks shared by every component: failure-carrying results,
    the ASCII case mapping used where the Go code calls strings.ToLower, and
    "last element or default", which is how a loop that keeps overwriting one
    variable ends up. */
module Common {

  datatype Option<+T> = None | Some(value: T)

  datatype Result<+T, +E> = Success(value: T) | Failure(error: E)

  /** Lower-cases one ASCII letter and leaves every other character alone. */
  function LowerChar(c: char): char
  {
    if 'A' <= c <= 'Z' then (c as int + 32) as char else c
  }

  predicate IsUpper(c: char)
  {
    'A' <= c <= 'Z'
  }

  /** strings.ToLower, restricted to the ASCII letters. */
  function Lower(s: string): (r: string)
    ensures |r| == |s|
    ensures forall i :: 0 <= i < |r| ==> !IsUpper(r[i])
  {
    seq(|s|, i requires 0 <= i < |s| => LowerChar(s[i]))
  }

  /** Lower-casing twice changes nothing more. */
  lemma LowerIdempotent(s: string)
    ensures Lower(Lower(s)) == Lower(s)
  {
  }

  /** The last element of s, or d when s is empty: the final value of a
      variable that starts at d and is overwritten with each element of s. */
  function LastOr<T>(s: seq<T>, d: T): T
  {
    if s == [] then d else s[|s| - 1]
  }

  lemma LastOrAppend<T>(a: seq<T>, b: seq<T>, d: T)
    ensures LastOr(a + b, d) == LastOr(b, LastOr(a, d))
  {
  }

  /** The map built by assigning each (key, value) pair in order: for a
      repeated key, the later value wins. */
  function LastWins<K, V>(pairs: seq<(K, V)>): map<K, V>
  {
    if pairs == [] then map[]
    else LastWins(pairs[..|pairs| - 1])[pairs[|pairs| - 1].0 := pairs[|pairs| - 1].1]
  }

  lemma LastWinsSnoc<K, V>(pairs: seq<(K, V)>, kv: (K, V))
    ensures LastWins(pairs + [kv]) == LastWins(pairs)[kv.0 := kv.1]
  {
    assert (pairs + [kv])[..|pairs|] == pairs;
  }

  /** The keys are exactly the keys of the pairs. */
  lemma {:induction false} LastWinsKeys<K, V>(pairs: seq<(K, V)>, k: K)
    ensures k in LastWins(pairs) <==> exists i :: 0 <= i < |pairs| && pairs[i].0 == k
  {
    if pairs != [] {
      var n := |pairs| - 1;
      LastWinsKeys(pairs[..n], k);
      if k in LastWins(pairs[..n]) {
        var i :| 0 <= i < n && pairs[..n][i].0 == k;
        assert pairs[i].0 == k;
      }
      if exists i :: 0 <= i < |pairs| && pairs[i].0 == k {
        var i :| 0 <= i < |pairs| && pairs[i].0 == k;
        if i < n {
          assert pairs[..n][i].0 == k;
        }
      }
    }
  }

  /** A key maps to the value of its last pair. */
  lemma {:induction false} LastWinsValue<K, V>(pairs: seq<(K, V)>, j: nat)
    requires j < |pairs|
    requires forall i :: j < i < |pairs| ==> pairs[i].0 != pairs[j].0
    ensures pairs[j].0 in LastWins(pairs) && LastWins(pairs)[pairs[j].0] == pairs[j].1
  {
    var n := |pairs| - 1;
    if j < n {
      LastWinsValue(pairs[..n], j);
    }
  }
}
