/** Small types and sequence facts shared by the other modules. */
module Common {
  datatype Option<+T> = None | Some(value: T)

  /** How many leading elements two sequences share. */
  function CommonPrefixLen<T(==)>(a: seq<T>, b: seq<T>): (n: nat)
    ensures n <= |a| && n <= |b|
    ensures a[..n] == b[..n]
    ensures n < |a| && n < |b| ==> a[n] != b[n]
  {
    if a == [] || b == [] || a[0] != b[0] then 0
    else
      var n := CommonPrefixLen(a[1..], b[1..]);
      assert a[..n + 1] == [a[0]] + a[1..][..n] && b[..n + 1] == [b[0]] + b[1..][..n];
      n + 1
  }

  function Min(a: nat, b: nat): nat { if a < b then a else b }

  /** `common_prefix_len` capped so that one prompt token is left to evaluate. */
  function ReusablePrefix<T(==)>(held: seq<T>, prompt: seq<T>): (n: nat)
    ensures n <= |held| && n <= |prompt| && (prompt != [] ==> n < |prompt|)
    ensures held[..n] == prompt[..n]
  {
    var k := CommonPrefixLen(held, prompt);
    var n := if |prompt| == 0 then 0 else Min(k, |prompt| - 1);
    assert held[..n] == held[..k][..n] && prompt[..n] == prompt[..k][..n];
    n
  }

  /** Two sequences that agree on `n` elements share at least `n`. */
  lemma {:induction false} CommonPrefixAtLeast<T>(a: seq<T>, b: seq<T>, n: nat)
    requires n <= |a| && n <= |b| && a[..n] == b[..n]
    ensures CommonPrefixLen(a, b) >= n
  {
    if n > 0 {
      assert a[0] == a[..n][0] && b[0] == b[..n][0];
      assert a[1..][..n - 1] == a[..n][1..] && b[1..][..n - 1] == b[..n][1..];
      CommonPrefixAtLeast(a[1..], b[1..], n - 1);
    }
  }

  /** Something is kept exactly when the first of at least two is shared. */
  lemma SharesFirst<T>(held: seq<T>, prompt: seq<T>)
    ensures ReusablePrefix(held, prompt) > 0 <==> held != [] && |prompt| > 1 && held[0] == prompt[0]
  {}
}
