/**
 * The few functions of the C string library the core relies on, on C strings
 * modelled as the characters before the terminating NUL.
 */
module CStrings {
  import opened Wrappers

  /** A C `char` that can stand inside a string: a byte other than NUL. */
  predicate CChar(c: char) {
    0 < c as int < 256
  }

  /** The contents of a NUL-terminated C string. */
  predicate CString(s: string) {
    forall i :: 0 <= i < |s| ==> CChar(s[i])
  }

  /**
   * `strncpy(dst, src, n)` followed by `dst[n] = '\0'`: the first
   * `min(|s|, n)` characters of `s`.
   */
  function Truncar(s: string, n: nat): (r: string)
    ensures |r| <= n && |r| <= |s|
    ensures |s| <= n ==> r == s
    ensures |s| > n ==> |r| == n
    ensures r <= s
    ensures CString(s) ==> CString(r)
  {
    if |s| <= n then s else s[..n]
  }

  /** The characters of `s` before its first NUL (what a C function reading `s` sees). */
  function AteNul(s: string): (r: string)
    ensures r <= s
    ensures '\0' !in r
    ensures r == s || (|r| < |s| && s[|r|] == '\0')
  {
    if s == [] then []
    else if s[0] == '\0' then []
    else [s[0]] + AteNul(s[1..])
  }

  /**
   * `strcmp`: only the sign of its result is specified by the C standard
   * (section 7.24.4.2 of C11), so the model returns -1, 0 or 1. The
   * comparison is on unsigned character values; a string that is a proper
   * prefix of the other is smaller, because its terminator is compared
   * against a non-NUL character.
   */
  function Strcmp(a: string, b: string): (r: int)
    ensures r == -1 || r == 0 || r == 1
    ensures r == 0 <==> a == b
  {
    if a == [] && b == [] then 0
    else if a == [] then -1
    else if b == [] then 1
    else if a[0] < b[0] then -1
    else if a[0] > b[0] then 1
    else
      assert a == [a[0]] + a[1..] && b == [b[0]] + b[1..];
      Strcmp(a[1..], b[1..])
  }

  /** Lexicographic order on character codes, stated independently of `Strcmp`. */
  ghost predicate LexMenor(a: string, b: string) {
    exists k :: 0 <= k <= |a| && k <= |b| && a[..k] == b[..k] &&
      ((k == |a| && k < |b|) || (k < |a| && k < |b| && a[k] < b[k]))
  }

  lemma {:induction false} StrcmpNegativoSeLexMenor(a: string, b: string)
    ensures Strcmp(a, b) < 0 <==> LexMenor(a, b)
  {
    if a == [] && b == [] {
    } else if a == [] {
      assert a[..0] == b[..0];
    } else if b == [] {
    } else if a[0] != b[0] {
      LexMenorPrimeiro(a, b);
    } else {
      StrcmpNegativoSeLexMenor(a[1..], b[1..]);
      LexMenorCauda(a, b);
    }
  }

  /** Strings that differ in their first character are ordered by it. */
  lemma LexMenorPrimeiro(a: string, b: string)
    requires a != [] && b != [] && a[0] != b[0]
    ensures LexMenor(a, b) <==> a[0] < b[0]
  {
    if a[0] < b[0] {
      assert a[..0] == b[..0];
    }
    if LexMenor(a, b) {
      var k :| 0 <= k <= |a| && k <= |b| && a[..k] == b[..k] &&
        ((k == |a| && k < |b|) || (k < |a| && k < |b| && a[k] < b[k]));
      assert k > 0 ==> a[..k][0] == b[..k][0];
    }
  }

  /** Strings with the same first character are ordered as their tails. */
  lemma LexMenorCauda(a: string, b: string)
    requires a != [] && b != [] && a[0] == b[0]
    ensures LexMenor(a, b) <==> LexMenor(a[1..], b[1..])
  {
    if LexMenor(a, b) {
      LexMenorDesce(a, b);
    }
    if LexMenor(a[1..], b[1..]) {
      LexMenorSobe(a, b);
    }
  }

  lemma LexMenorDesce(a: string, b: string)
    requires a != [] && b != [] && a[0] == b[0] && LexMenor(a, b)
    ensures LexMenor(a[1..], b[1..])
  {
    var k :| 0 <= k <= |a| && k <= |b| && a[..k] == b[..k] &&
      ((k == |a| && k < |b|) || (k < |a| && k < |b| && a[k] < b[k]));
    assert k > 0;
    var j := k - 1;
    assert a[1..][..j] == a[..k][1..] == b[..k][1..] == b[1..][..j];
    assert j < |a[1..]| ==> a[1..][j] == a[k];
    assert j < |b[1..]| ==> b[1..][j] == b[k];
  }

  lemma LexMenorSobe(a: string, b: string)
    requires a != [] && b != [] && a[0] == b[0] && LexMenor(a[1..], b[1..])
    ensures LexMenor(a, b)
  {
    var k :| 0 <= k <= |a[1..]| && k <= |b[1..]| && a[1..][..k] == b[1..][..k] &&
      ((k == |a[1..]| && k < |b[1..]|) || (k < |a[1..]| && k < |b[1..]| && a[1..][k] < b[1..][k]));
    assert a[..k + 1] == [a[0]] + a[1..][..k];
    assert b[..k + 1] == [b[0]] + b[1..][..k];
  }

  lemma {:induction false} StrcmpAntissimetrico(a: string, b: string)
    ensures Strcmp(a, b) == -Strcmp(b, a)
  {
    if a != [] && b != [] && a[0] == b[0] {
      StrcmpAntissimetrico(a[1..], b[1..]);
    }
  }

  lemma {:induction false} StrcmpTransitivo(a: string, b: string, c: string)
    requires Strcmp(a, b) <= 0 && Strcmp(b, c) <= 0
    ensures Strcmp(a, c) <= 0
  {
    if a != [] && b != [] && c != [] && a[0] == b[0] == c[0] {
      StrcmpTransitivo(a[1..], b[1..], c[1..]);
    }
  }

  /** Whether `agulha` occurs in `palheiro` at position `i`. */
  predicate OcorreEm(palheiro: string, agulha: string, i: nat) {
    i + |agulha| <= |palheiro| && palheiro[i..i + |agulha|] == agulha
  }

  /**
   * `strstr`: the position of the first occurrence of `agulha` in
   * `palheiro`, or None (a NULL result). An empty needle occurs at
   * position 0 (section 7.24.5.7 of C11).
   */
  function Strstr(palheiro: string, agulha: string): (r: Option<nat>)
    ensures r.Some? ==> OcorreEm(palheiro, agulha, r.value)
    ensures r.Some? ==> forall j :: 0 <= j < r.value ==> !OcorreEm(palheiro, agulha, j)
    ensures r.None? ==> forall j :: 0 <= j <= |palheiro| ==> !OcorreEm(palheiro, agulha, j)
    decreases |palheiro|
  {
    if |agulha| <= |palheiro| && palheiro[..|agulha|] == agulha then Some(0)
    else if palheiro == [] then None
    else
      var r := Strstr(palheiro[1..], agulha);
      assert forall j :: 0 < j <= |palheiro| ==>
        (OcorreEm(palheiro, agulha, j) <==> OcorreEm(palheiro[1..], agulha, j - 1)) by {
        forall j | 0 < j <= |palheiro|
          ensures OcorreEm(palheiro, agulha, j) <==> OcorreEm(palheiro[1..], agulha, j - 1)
        {
          OcorreEmDeslocado(palheiro, agulha, j);
        }
      }
      if r.Some? then Some(r.value + 1) else None
  }

  /** An occurrence at `j > 0` is an occurrence at `j - 1` in the string without its first character. */
  lemma OcorreEmDeslocado(palheiro: string, agulha: string, j: nat)
    requires 0 < j <= |palheiro|
    ensures OcorreEm(palheiro, agulha, j) <==> OcorreEm(palheiro[1..], agulha, j - 1)
  {
    if j + |agulha| <= |palheiro| {
      assert palheiro[j..j + |agulha|] == palheiro[1..][j - 1..j - 1 + |agulha|];
    }
  }

  lemma StrstrAgulhaVazia(palheiro: string)
    ensures Strstr(palheiro, "") == Some(0)
  {
  }
}
