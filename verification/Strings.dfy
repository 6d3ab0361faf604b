/** C strings in buffers: where they end, and what is left of them in a buffer too short. */
module Strings {
  /** What strlen and strcpy see of a buffer: what comes before the first NUL. */
  function Before<T(==)>(s: seq<T>, nul: T): (c: seq<T>)
    ensures nul !in c && c <= s
    ensures |c| == |s| || s[|c|] == nul
  {
    if s == [] || s[0] == nul then [] else [s[0]] + Before(s[1..], nul)
  }

  lemma {:induction false} BeforeIs<T>(s: seq<T>, nul: T, n: nat)
    requires n <= |s| && nul !in s[..n] && (n == |s| || s[n] == nul)
    ensures Before(s, nul) == s[..n]
    decreases n
  {
    if n > 0 {
      assert s[0] == s[..n][0];
      assert s[1..][..n - 1] == s[..n][1..];
      BeforeIs(s[1..], nul, n - 1);
    }
  }

  /** What a buffer of n + 1 bytes keeps of a C string. */
  function Cut<T>(s: seq<T>, n: nat): (c: seq<T>)
    ensures c <= s && |c| == if |s| < n then |s| else n
  {
    if |s| <= n then s else s[..n]
  }
}
