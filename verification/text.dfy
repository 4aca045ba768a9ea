/** String operations of JavaScript used by the application, over `seq<char>`.
    Case mapping is ASCII-only. */
module Text {

  predicate IsUpper(c: char) { 'A' <= c <= 'Z' }

  predicate IsLower(c: char) { 'a' <= c <= 'z' }

  function LowerChar(c: char): char {
    if IsUpper(c) then (c as int + 32) as char else c
  }

  function UpperChar(c: char): char {
    if IsLower(c) then (c as int - 32) as char else c
  }

  /** `toLowerCase`, restricted to the ASCII letters. */
  function Lower(s: string): (r: string)
    ensures |r| == |s|
    ensures forall i :: 0 <= i < |s| ==> r[i] == LowerChar(s[i])
  {
    seq(|s|, i requires 0 <= i < |s| => LowerChar(s[i]))
  }

  /** `s.startsWith(p)`. */
  predicate IsPrefix(p: string, s: string) {
    |p| <= |s| && s[..|p|] == p
  }

  /** `s.includes(q)`: `q` occurs in `s` at some offset. */
  predicate Contains(s: string, q: string)
    ensures q == [] ==> Contains(s, q)
    ensures Contains(s, q) ==> |q| <= |s|
    decreases |s|
  {
    IsPrefix(q, s) || (|s| > 0 && Contains(s[1..], q))
  }

  /** `q` occurs in `s` starting at offset `k`. */
  predicate OccursAt(s: string, q: string, k: int) {
    0 <= k <= |s| - |q| && s[k..k + |q|] == q
  }

  /** `Contains` agrees with the offset-based definition of a substring. */
  lemma {:induction false} ContainsAtOffset(s: string, q: string)
    ensures Contains(s, q) <==> exists k :: OccursAt(s, q, k)
    decreases |s|
  {
    if IsPrefix(q, s) {
      assert OccursAt(s, q, 0);
    } else if |s| > 0 {
      ContainsAtOffset(s[1..], q);
      if Contains(s[1..], q) {
        var k :| OccursAt(s[1..], q, k);
        assert s[k + 1..k + 1 + |q|] == s[1..][k..k + |q|];
        assert OccursAt(s, q, k + 1);
      }
      if k :| OccursAt(s, q, k) {
        assert k != 0;
        assert s[1..][k - 1..k - 1 + |q|] == s[k..k + |q|];
        assert OccursAt(s[1..], q, k - 1);
      }
    }
  }

  /** The WhiteSpace and LineTerminator characters removed by `trim`. */
  predicate IsJsSpace(c: char) {
    || c == '\t' || c == '\n' || c == '\U{B}' || c == '\U{C}' || c == '\r' || c == ' '
    || c == '\U{A0}' || c == '\U{1680}' || ('\U{2000}' <= c <= '\U{200A}')
    || c == '\U{2028}' || c == '\U{2029}' || c == '\U{202F}' || c == '\U{205F}'
    || c == '\U{3000}' || c == '\U{FEFF}'
  }

  /** `trimStart`: drops the leading white space. */
  function TrimStart(s: string): (r: string)
    ensures |r| <= |s| && r == s[|s| - |r|..]
    ensures forall i :: 0 <= i < |s| - |r| ==> IsJsSpace(s[i])
    ensures r == [] || !IsJsSpace(r[0])
    decreases |s|
  {
    if s != [] && IsJsSpace(s[0]) then TrimStart(s[1..]) else s
  }

  /** `trimEnd`: drops the trailing white space. */
  function TrimEnd(s: string): (r: string)
    ensures |r| <= |s| && r == s[..|r|]
    ensures forall i :: |r| <= i < |s| ==> IsJsSpace(s[i])
    ensures r == [] || !IsJsSpace(r[|r| - 1])
    decreases |s|
  {
    if s != [] && IsJsSpace(s[|s| - 1]) then TrimEnd(s[..|s| - 1]) else s
  }

  /** `trim`: a piece of `s` that neither starts nor ends with white space;
      `TrimRemovesOnlyEnds` says which piece. */
  function Trim(s: string): (r: string)
    ensures |r| <= |s| && exists k :: OccursAt(s, r, k)
    ensures r == [] || (!IsJsSpace(r[0]) && !IsJsSpace(r[|r| - 1]))
  {
    var u := TrimStart(s);
    var r := TrimEnd(u);
    TrimPieces(s, u, r);
    r
  }

  /** `r` occurs in `s` at offset `k`, with only white space before and after it. */
  predicate TrimmedAt(s: string, r: string, k: int) {
    && OccursAt(s, r, k)
    && (forall i :: 0 <= i < k ==> IsJsSpace(s[i]))
    && (forall i :: k + |r| <= i < |s| ==> IsJsSpace(s[i]))
  }

  /** `trim` removes the white space at the two ends of `s` and nothing else. */
  lemma TrimRemovesOnlyEnds(s: string)
    ensures exists k :: TrimmedAt(s, Trim(s), k)
  {
    var u := TrimStart(s);
    assert Trim(s) == TrimEnd(u);
    TrimPieces(s, u, Trim(s));
    assert TrimmedAt(s, Trim(s), |s| - |u|);
  }

  /** Dropping white space from the front of `s` (giving `u`) and then from
      the back of `u` (giving `r`) leaves `r` at offset `|s| - |u|`. */
  lemma TrimPieces(s: string, u: string, r: string)
    requires |u| <= |s| && u == s[|s| - |u|..]
    requires forall i :: 0 <= i < |s| - |u| ==> IsJsSpace(s[i])
    requires |r| <= |u| && r == u[..|r|]
    requires forall i :: |r| <= i < |u| ==> IsJsSpace(u[i])
    ensures TrimmedAt(s, r, |s| - |u|)
  {
    var k := |s| - |u|;
    forall j | 0 <= j < |r| ensures s[k..k + |r|][j] == r[j] {
      assert r[j] == u[j] == s[k + j];
    }
    assert OccursAt(s, r, k);
    forall i | k + |r| <= i < |s| ensures IsJsSpace(s[i]) {
      assert s[i] == u[i - k];
    }
  }

  /** `!s.trim()`: nothing is left after trimming. */
  predicate Blank(s: string) { Trim(s) == "" }

  /** Every character of `s` is white space. */
  predicate AllJsSpace(s: string) { forall i :: 0 <= i < |s| ==> IsJsSpace(s[i]) }

  /** `s.trim()` is empty exactly when `s` is blank: every character is white space. */
  lemma TrimEmptyIffBlank(s: string)
    ensures Trim(s) == "" <==> AllJsSpace(s)
  {
    var t := TrimStart(s);
    if Trim(s) == "" {
      assert t == [];
    } else {
      assert t != [];
      assert s[|s| - |t|] == t[0];
    }
  }

  /** A string with no white space at either end is its own `trim`. */
  lemma TrimIdentity(s: string)
    requires s == [] || (!IsJsSpace(s[0]) && !IsJsSpace(s[|s| - 1]))
    ensures Trim(s) == s
  {
  }

  /** `s.slice(0, n)`: at most the first `n` characters. */
  function Take(s: string, n: nat): (r: string)
    ensures |r| == if |s| <= n then |s| else n
    ensures IsPrefix(r, s)
  {
    if |s| <= n then s else s[..n]
  }
}
