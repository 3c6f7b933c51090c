/** Small vocabulary shared by the components: options, ASCII case folding, substring search and division. */
module Common {

  datatype Option<+T> = None | Some(value: T)

  function LowerChar(c: char): char {
    if 'A' <= c <= 'Z' then c - 'A' + 'a' else c
  }

  function UpperChar(c: char): char {
    if 'a' <= c <= 'z' then c - 'a' + 'A' else c
  }

  function ToLower(s: string): (r: string)
    ensures |r| == |s|
    ensures forall i :: 0 <= i < |s| ==> r[i] == LowerChar(s[i])
  {
    seq(|s|, i requires 0 <= i < |s| => LowerChar(s[i]))
  }

  function ToUpper(s: string): (r: string)
    ensures |r| == |s|
    ensures forall i :: 0 <= i < |s| ==> r[i] == UpperChar(s[i])
  {
    seq(|s|, i requires 0 <= i < |s| => UpperChar(s[i]))
  }

  predicate OccursAt(s: string, sub: string, i: int) {
    0 <= i <= |s| - |sub| && s[i..i + |sub|] == sub
  }

  predicate Contains(s: string, sub: string) {
    exists i :: 0 <= i <= |s| && OccursAt(s, sub, i)
  }

  /** sub stands somewhere in s, with any text around it. */
  ghost predicate Within(sub: string, s: string) {
    exists before, after :: s == before + sub + after
  }

  lemma ContainsMeans(s: string, sub: string)
    ensures Contains(s, sub) <==> Within(sub, s)
  {
    if Contains(s, sub) {
      var i :| 0 <= i <= |s| && OccursAt(s, sub, i);
      assert s == s[..i] + sub + s[i + |sub|..];
    }
    if Within(sub, s) {
      var before, after :| s == before + sub + after;
      assert OccursAt(s, sub, |before|);
    }
  }

  predicate ContainsAny(s: string, subs: seq<string>) {
    exists i :: 0 <= i < |subs| && Contains(s, subs[i])
  }

  predicate IsSpace(c: char) {
    c == ' ' || '\t' <= c <= '\r'
  }

  /** s without the characters of the cut set at either end. */
  function Trim(s: string, cut: char -> bool): (r: string)
    ensures |r| <= |s|
  {
    if s == "" then ""
    else if cut(s[0]) then Trim(s[1..], cut)
    else if cut(s[|s| - 1]) then Trim(s[..|s| - 1], cut)
    else s
  }

  /** What is cut off on either side is of the cut set, and nothing of it is left at the ends. */
  lemma {:induction false} TrimMeans(s: string, cut: char -> bool) returns (i: nat, j: nat)
    ensures i <= j <= |s| && Trim(s, cut) == s[i..j] && (i < j ==> !cut(s[i]) && !cut(s[j - 1]))
    ensures forall k :: 0 <= k < i || j <= k < |s| ==> cut(s[k])
  {
    if s == "" || (!cut(s[0]) && !cut(s[|s| - 1])) {
      i, j := 0, |s|;
    } else if cut(s[0]) {
      var a, b := TrimMeans(s[1..], cut);
      i, j := a + 1, b + 1;
      forall k | 0 <= k < i || j <= k < |s| ensures cut(s[k]) {
        if k > 0 { assert s[1..][k - 1] == s[k]; }
      }
    } else {
      i, j := TrimMeans(s[..|s| - 1], cut);
    }
  }

  lemma MulLe(a: int, b: int, p: int)
    requires a <= b && p >= 0
    ensures a * p <= b * p
  {
    assert (b - a) * p >= 0;
  }

  /** Quotient and remainder are determined by their equation. */
  lemma DivModUnique(total: nat, q: int, m: nat, v: nat)
    requires v < m && total == q * m + v
    ensures total / m == q && total % m == v
  {
    var k := total / m;
    assert total == k * m + total % m;
    assert (k - q) * m == v - total % m;
    if k > q {
      MulLe(1, k - q, m);
    } else if k < q {
      MulLe(k - q, -1, m);
    }
  }

  /** Counting on from a position in a ring of n. */
  lemma WrapsOnce(start: nat, i: nat, n: nat)
    requires i < n
    ensures
      var k := start % n;
      (start + i) % n == if k + i < n then k + i else k + i - n
  {
    var q, k := start / n, start % n;
    assert start == q * n + k;
    if k + i < n {
      DivModUnique(start + i, q, n, k + i);
    } else {
      assert (q + 1) * n == q * n + n;
      DivModUnique(start + i, q + 1, n, k + i - n);
    }
  }

  lemma NextStart(start: nat, n: nat)
    requires n > 0
    ensures (start + 1) % n == if start % n + 1 == n then 0 else start % n + 1
  {
    if n > 1 { WrapsOnce(start, 1, n); }
  }
}
