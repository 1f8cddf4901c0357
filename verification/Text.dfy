/** String searching and trimming, as the Rust standard library does them. */
module Text {
  import opened Common

  /** `char::is_whitespace`: Unicode's White_Space property. */
  predicate IsWs(c: char) {
    || '\U{9}' <= c <= '\U{D}' || c == ' ' || c == '\U{85}' || c == '\U{A0}' || c == '\U{1680}'
    || '\U{2000}' <= c <= '\U{200A}' || c == '\U{2028}' || c == '\U{2029}' || c == '\U{202F}'
    || c == '\U{205F}' || c == '\U{3000}'
  }

  predicate AllWs(s: string) { forall i :: 0 <= i < |s| ==> IsWs(s[i]) }

  function TrimStart(s: string): string {
    if s != [] && IsWs(s[0]) then TrimStart(s[1..]) else s
  }

  function TrimEnd(s: string): string {
    if s != [] && IsWs(s[|s| - 1]) then TrimEnd(s[..|s| - 1]) else s
  }

  function Trim(s: string): string { TrimEnd(TrimStart(s)) }

  predicate StartsWith(s: string, pat: string) { |pat| <= |s| && s[..|pat|] == pat }

  /** Where `pat` first occurs in `s`. */
  function Find(s: string, pat: string): (r: Option<nat>)
    ensures r.Some? ==> r.value + |pat| <= |s|
  {
    if StartsWith(s, pat) then Some(0)
    else if s == [] then None
    else Later(1, Find(s[1..], pat))
  }

  /** A position counted from `ahead` places further back. */
  function Later(ahead: nat, r: Option<nat>): Option<nat> {
    match r
    case None => None
    case Some(n) => Some(ahead + n)
  }

  /** Two texts that agree on their first `n` characters. */
  ghost predicate Agree(s: string, u: string, n: nat) {
    n <= |s| && n <= |u| && forall i :: 0 <= i < n ==> s[i] == u[i]
  }

  lemma AgreeDrop(s: string, u: string, n: nat, k: nat)
    requires Agree(s, u, n) && k <= n
    ensures Agree(s[k..], u[k..], n - k)
  {}

  lemma AgreeSlice(s: string, u: string, n: nat, a: nat, b: nat)
    requires Agree(s, u, n) && a <= b <= n
    ensures s[a..b] == u[a..b]
  {}

  /** Finding is local: what comes after the occurrence does not matter. */
  lemma {:induction false} FindLocal(s: string, u: string, pat: string, k: nat)
    requires Find(s, pat) == Some(k) && pat != [] && Agree(s, u, k + |pat|)
    ensures Find(u, pat) == Some(k)
  {
    AgreeSlice(s, u, k + |pat|, 0, |pat|);
    if !StartsWith(s, pat) {
      AgreeDrop(s, u, k + |pat|, 1);
      FindLocal(s[1..], u[1..], pat, k - 1);
    }
  }

  /** Text without the first character of what is looked for is passed over. */
  lemma {:induction false} FindPast(x: string, t: string, pat: string)
    requires pat != [] && pat[0] !in x
    ensures Find(x + t, pat) == Later(|x|, Find(t, pat))
  {
    var s := x + t;
    if x == [] {
      assert s == t;
    } else {
      assert s[1..] == x[1..] + t && s[0] == x[0];
      assert |s| >= |pat| ==> s[..|pat|][0] == s[0];
      FindPast(x[1..], t, pat);
    }
  }

  /** A slice of a tail is a slice of the whole. */
  lemma TailSlice(src: string, at: nat, a: nat, b: nat)
    requires at <= |src| && a <= b <= |src| - at
    ensures src[at..][a..b] == src[at + a..at + b]
    ensures src[at..][a..] == src[at + a..]
  {}

  lemma DropDrop(s: string, a: nat, b: nat)
    requires a + b <= |s|
    ensures s[a..][b..] == s[a + b..]
  {}

  /** Cutting two joined texts inside the first one. */
  lemma TakeDrop(x: string, t: string, e: nat)
    requires e <= |x|
    ensures (x + t)[..e] == x[..e] && (x + t)[e..] == x[e..] + t
  {}

  /** And inside the second one. */
  lemma DropPast(x: string, t: string, n: nat)
    requires n <= |t|
    ensures (x + t)[|x| + n..] == t[n..]
    ensures (x + t)[|x|..|x| + n] == t[..n]
  {}

  /** Cutting a tail of a text. */
  lemma CutTail(s: string, at: nat, body: string, n: nat)
    requires at <= |s| && s[at..] == body && 0 < n <= |body|
    ensures s[at..at + n - 1] == body[..n - 1] && s[at + n..] == body[n..]
  {}

  lemma CutJoin(x: string, y: string)
    ensures (x + y)[..|x|] == x && (x + y)[|x|..] == y
  {}

  lemma RegroupComma(a: string, b: string, c: string)
    ensures a + "," + b + c == a + ("," + (b + c))
  {}

  lemma Regroup4(a: string, b: string, c: string, d: string)
    ensures a + (b + c + d) == (a + b) + c + d
  {}

  lemma Regroup(a: string, b: string, c: string)
    ensures a + (b + c) == (a + b) + c
  {}
}
