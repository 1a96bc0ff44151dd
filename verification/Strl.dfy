/** strlcpy and strlcat. */
module Strl {
  const NUL: char := '\0'

  /** One more than the largest size_t on 32-bit ARM. */
  const WRAP: nat := 0x1_0000_0000

  type CString = s: seq<char> | NUL in s witness [NUL]

  // ---- What the two functions leave in memory --------------------------------------------

  function Length(s: CString): (k: nat)
    ensures k < |s| && s[k] == NUL && NUL !in s[..k]
  {
    if s[0] == NUL then 0 else
      assert s == [s[0]] + s[1..];
      var k := 1 + Length(s[1..]);
      assert s[..k] == [s[0]] + s[1..][..k - 1];
      k
  }

  function Text(s: CString): string {
    s[..Length(s)]
  }

  lemma LengthIs(s: CString, k: nat)
    requires k < |s| && s[k] == NUL && forall i | 0 <= i < k :: s[i] != NUL
    ensures Length(s) == k && Text(s) == s[..k]
  {
    var len := Length(s);
    assert forall i | 0 <= i < len :: s[i] == s[..len][i];
  }

  function Min(a: nat, b: nat): nat {
    if a <= b then a else b
  }

  /** The first `n - 1` characters of the text and a NUL; a size of 0 leaves all as it was. */
  function Copied(d: seq<char>, text: string, n: nat): (r: seq<char>)
    requires n <= |d|
    ensures |r| == |d| && r[n..] == d[n..]
  {
    if n == 0 then d
    else
      var k := Min(n - 1, |text|);
      text[..k] + [NUL] + d[k + 1..]
  }

  /** How much of the first `n` characters comes before a NUL. */
  function Used(d: seq<char>, n: nat): (u: nat)
    requires n <= |d|
    ensures u <= n
  {
    if NUL in d[..n] then Length(d[..n]) else n
  }

  /** The text after what is there, as far as it fits; nothing if there is no NUL in reach. */
  function Appended(d: seq<char>, text: string, n: nat): (r: seq<char>)
    requires n <= |d|
    ensures Used(d, n) == n ==> r == d
    ensures |r| == |d| && r[n..] == d[n..]
  {
    var u := Used(d, n);
    if u == n then d
    else
      var k := Min(n - u - 1, |text|);
      d[..u] + text[..k] + [NUL] + d[u + k + 1..]
  }

  // ---- The code --------------------------------------------------------------------------

  lemma CopyFits(was: seq<char>, text: seq<char>, len: nat, n: nat)
    requires len + 1 < n <= |was| && len < |text| && text[len] == NUL
    ensures text[..len + 1] + was[len + 1..] == Copied(was, text[..len], n)
  {
  }

  lemma CopyCut(was: seq<char>, text: seq<char>, len: nat, n: nat)
    requires n <= len + 1 && n <= |was| && len < |text|
    ensures n > 0 ==> text[..n - 1] + [NUL] + was[n..] == Copied(was, text[..len], n)
    ensures n == 0 ==> was == Copied(was, text[..len], n)
  {
    if n > 0 {
      assert Min(n - 1, |text[..len]|) == n - 1;
      assert text[..n - 1] == text[..len][..n - 1];
    }
  }

  /** Runs to one character past the NUL. */
  method PastEnd(src: array<char>, at: nat) returns (s: nat)
    requires NUL in src[..] && at <= Length(src[..])
    ensures s == Length(src[..]) + 1
  {
    ghost var len := Length(src[..]);
    assert forall i | 0 <= i < len :: src[i] == src[..][..len][i];
    var c := src[at];
    s := at + 1;
    while c != NUL
      invariant 0 < s <= len + 1 && c == src[s - 1]
      decreases len - s
    {
      c := src[s];
      s := s + 1;
    }
  }

  /** Copies until the size runs out or the NUL has been copied; `n` is what is left of the size. */
  method CopyWhileFits(dst: array<char>, src: array<char>, siz: nat) returns (d: nat, n: nat)
    requires dst != src && 0 < siz <= dst.Length && NUL in src[..]
    modifies dst
    ensures var len := Length(src[..]);
            if n == 0 then d == siz - 1 <= len else d == len + 1 < siz
    ensures d <= dst.Length && d <= src.Length && dst[..] == src[..d] + old(dst[..])[d..]
  {
    ghost var was, text := dst[..], src[..];
    ghost var len := Length(text);
    assert forall i | 0 <= i < len :: text[i] == text[..len][i];
    hide Length;
    d := 0;
    n := siz - 1;
    while n != 0
      invariant d <= len && d + n == siz - 1
      invariant forall i | 0 <= i < d :: dst[i] == text[i]
      invariant forall i | d <= i < dst.Length :: dst[i] == was[i]
    {
      dst[d] := src[d];
      d := d + 1;
      if dst[d - 1] == NUL {
        assert d == len + 1;
        break;
      }
      n := n - 1;
    }
    assert dst[..] == text[..d] + was[d..];
  }

  method StrlCpy(dst: array<char>, src: array<char>, siz: nat) returns (r: nat)
    requires dst != src && siz <= dst.Length && NUL in src[..]
    modifies dst
    ensures dst[..] == Copied(old(dst[..]), Text(src[..]), siz)
    ensures r == |Text(src[..])|
  {
    hide Length, Copied;
    ghost var was, text := dst[..], src[..];
    ghost var len := Length(text);
    var d, n := 0, siz;
    if n != 0 {
      d, n := CopyWhileFits(dst, src, siz);
    }
    if n == 0 {
      if siz != 0 {
        dst[d] := NUL;
      }
      d := PastEnd(src, d);
      CopyCut(was, text, len, siz);
    } else {
      CopyFits(was, text, len, siz);
    }
    r := d - 1;
  }

  /** The first loop of strlcat. The size left is an unsigned number that is decremented once more
      after it has reached 0; the value it wraps to is never used. */
  method FindEnd(dst: array<char>, siz: nat) returns (dlen: nat)
    requires siz <= dst.Length && siz < WRAP
    ensures dlen == Used(dst[..], siz)
  {
    var d, n := 0, siz;
    var more := true;
    while more
      invariant d <= siz && forall i | 0 <= i < d :: dst[i] != NUL
      invariant if more then n == siz - d else d == siz || dst[d] == NUL
      decreases more, siz - d
    {
      more := n != 0;
      n := (n - 1) % WRAP;
      if more {
        more := dst[d] != NUL;
        if more {
          d := d + 1;
        }
      }
    }
    dlen := d;
    UsedIs(dst[..], siz, d);
  }

  lemma UsedIs(s: seq<char>, n: nat, d: nat)
    requires d <= n <= |s| && (forall i | 0 <= i < d :: s[i] != NUL) && (d == n || s[d] == NUL)
    ensures Used(s, n) == d
  {
    assert forall i | 0 <= i < n :: s[i] == s[..n][i];
    if d < n {
      LengthIs(s[..n], d);
    }
  }

  /** The second loop: the characters that fit are written, all are counted. */
  method AppendWhileFits(dst: array<char>, src: array<char>, dlen: nat, siz: nat) returns (d: nat, s: nat)
    requires dst != src && dlen < siz <= dst.Length && NUL in src[..]
    modifies dst
    ensures s == Length(src[..]) && d == dlen + Min(siz - dlen - 1, s)
    ensures dst[..] == old(dst[..])[..dlen] + src[..d - dlen] + old(dst[..])[d..]
  {
    ghost var was, text := dst[..], src[..];
    ghost var len := Length(text);
    assert forall i | 0 <= i < len :: text[i] == text[..len][i];
    hide Length;
    d, s := dlen, 0;
    var n := siz - dlen;
    while src[s] != NUL
      invariant s <= len && 1 <= n && d == dlen + Min(siz - dlen - 1, s) == siz - n
      invariant forall i | 0 <= i < dlen :: dst[i] == was[i]
      invariant forall i | dlen <= i < d :: dst[i] == text[i - dlen]
      invariant forall i | d <= i < dst.Length :: dst[i] == was[i]
      decreases len - s
    {
      if n != 1 {
        dst[d] := src[s];
        d, n := d + 1, n - 1;
      }
      s := s + 1;
    }
  }

  method StrlCat(dst: array<char>, src: array<char>, siz: nat) returns (r: nat)
    requires dst != src && siz <= dst.Length && siz < WRAP && NUL in src[..]
    modifies dst
    ensures dst[..] == Appended(old(dst[..]), Text(src[..]), siz)
    ensures r == Used(old(dst[..]), siz) + |Text(src[..])|
  {
    hide Used, Length, Appended;
    ghost var was, text := dst[..], src[..];
    var dlen := FindEnd(dst, siz);
    var n := siz - dlen;
    if n == 0 {
      var s := PastEnd(src, 0);
      return dlen + (s - 1);
    }
    var d, s := AppendWhileFits(dst, src, dlen, siz);
    dst[d] := NUL;
    AppendDone(was, text, s, dlen, siz);
    r := dlen + s;
  }

  lemma AppendDone(was: seq<char>, text: seq<char>, len: nat, u: nat, n: nat)
    requires n <= |was| && u == Used(was, n) < n && len <= |text|
    ensures var k := Min(n - u - 1, len);
            was[..u] + text[..k] + [NUL] + was[u + k + 1..] == Appended(was, text[..len], n)
  {
    hide Used;
    var k := Min(n - u - 1, len);
    assert text[..k] == text[..len][..k];
  }

  // ---- What a caller may rely on ---------------------------------------------------------

  /** What the copy leaves: `k` characters of the text, a NUL, and the rest as it was. */
  lemma CopiedAs(d: seq<char>, text: string, n: nat, k: nat)
    requires 0 < n <= |d| && k == Min(n - 1, |text|) && NUL !in text
    ensures Copied(d, text, n) == text[..k] + [NUL] + d[k + 1..]
    ensures Used(Copied(d, text, n), n) == k
  {
    var c := Copied(d, text, n);
    assert c[k] == NUL && forall i | 0 <= i < k :: c[i] == text[i];
    hide Copied, Used;
    UsedIs(c, n, k);
  }

  /** A copy writes what it copies and the NUL, and nothing behind it. */
  lemma CopyWritesOnly(d: seq<char>, text: string, n: nat, i: nat)
    requires n <= |d| && i < |d| && (n == 0 || i > Min(n - 1, |text|))
    ensures Copied(d, text, n)[i] == d[i]
  {
  }

  /** An append leaves the text before it, and everything behind the new NUL. */
  lemma AppendWritesOnly(d: seq<char>, text: string, n: nat, i: nat)
    requires n <= |d| && i < |d|
    requires var u := Used(d, n); u == n || i < u || i > u + Min(n - u - 1, |text|)
    ensures Appended(d, text, n)[i] == d[i]
  {
    hide Used;
  }

  /** Appending at `u` over a prefix and a NUL. */
  lemma AppendedAs(c: seq<char>, p: seq<char>, d: seq<char>, text: string, n: nat, k: nat)
    requires n <= |c| && c == p + [NUL] + d && Used(c, n) == |p| < n && k == Min(n - |p| - 1, |text|)
    ensures Appended(c, text, n) == p + text[..k] + [NUL] + d[k..]
  {
    hide Used;
    Slices(p, d, k);
  }

  lemma Slices(p: seq<char>, d: seq<char>, k: nat)
    requires k <= |d|
    ensures var c := p + [NUL] + d; c[..|p|] == p && c[|p| + k + 1..] == d[k..]
  {
  }

  lemma Takes(a: string, b: string, u: nat, k: nat)
    requires u <= |a| && k <= |b| && (u == |a| || k == 0)
    ensures a[..u] + b[..k] == (a + b)[..u + k]
  {
  }

  lemma Drops(d: seq<char>, u: nat, k: nat)
    requires u + k <= |d|
    ensures d[u..][k..] == d[u + k..]
  {
  }

  /** strlcpy then strlcat is one strlcpy of the two texts. */
  lemma CopyThenAppend(d: seq<char>, a: string, b: string, n: nat)
    requires 0 < n <= |d| && NUL !in a && NUL !in b
    ensures Appended(Copied(d, a, n), b, n) == Copied(d, a + b, n)
    ensures Used(Copied(d, a, n), n) == Min(n - 1, |a|)
  {
    hide Used, Copied, Appended;
    var u := Min(n - 1, |a|);
    var k := Min(n - u - 1, |b|);
    CopiedAs(d, a, n, u);
    AppendedAs(Copied(d, a, n), a[..u], d[u + 1..], b, n, k);
    CopiedAs(d, a + b, n, u + k);
    Takes(a, b, u, k);
    Drops(d, u + 1, k);
  }

  function AppendedAll(d: seq<char>, parts: seq<string>, n: nat): (r: seq<char>)
    requires n <= |d|
    ensures |r| == |d|
    decreases |parts|
  {
    if parts == [] then d else AppendedAll(Appended(d, parts[0], n), parts[1..], n)
  }

  function Concat(parts: seq<string>): string {
    if parts == [] then "" else parts[0] + Concat(parts[1..])
  }

  /** Any number of appends after the copy is one copy of everything. */
  lemma {:induction false} BuildsTheConcatenation(d: seq<char>, a: string, parts: seq<string>, n: nat)
    requires 0 < n <= |d| && NUL !in a && forall p | p in parts :: NUL !in p
    ensures AppendedAll(Copied(d, a, n), parts, n) == Copied(d, a + Concat(parts), n)
    decreases |parts|
  {
    hide Copied, Appended;
    if parts == [] {
      assert a + Concat(parts) == a;
    } else {
      assert parts[0] in parts && forall p | p in parts[1..] :: p in parts;
      CopyThenAppend(d, a, parts[0], n);
      BuildsTheConcatenation(d, a + parts[0], parts[1..], n);
      assert a + Concat(parts) == a + parts[0] + Concat(parts[1..]);
    }
  }

  /** The memory reads back as a string, whole exactly when the return value is below the size. */
  lemma CopyTruncatesIff(d: seq<char>, a: string, n: nat)
    requires 0 < n <= |d| && NUL !in a
    ensures NUL in Copied(d, a, n) && Text(Copied(d, a, n)) == a[..Min(n - 1, |a|)]
    ensures Text(Copied(d, a, n)) == a <==> |a| < n
  {
    var c, k := Copied(d, a, n), Min(n - 1, |a|);
    assert c[k] == NUL;
    assert forall i | 0 <= i < k :: c[i] == a[i];
    LengthIs(c, k);
    assert c[..k] == a[..k];
  }

  lemma UsedIsText(d: seq<char>, n: nat)
    requires n <= |d| && Used(d, n) < n
    ensures NUL in d && Text(d) == d[..Used(d, n)]
  {
    var u := Used(d, n);
    assert forall i | 0 <= i < u :: d[i] == d[..n][..u][i];
    assert d[u] == d[..n][u];
    LengthIs(d, u);
  }

  lemma AppendReads(d: seq<char>, b: string, n: nat)
    requires n <= |d| && NUL !in b && Used(d, n) < n
    ensures NUL in d && NUL in Appended(d, b, n)
    ensures Text(Appended(d, b, n)) == Text(d) + b[..Min(n - Used(d, n) - 1, |b|)]
  {
    var u := Used(d, n);
    var c, k := Appended(d, b, n), Min(n - u - 1, |b|);
    UsedIsText(d, n);
    NoNulBefore(d, n);
    assert c == d[..u] + b[..k] + [NUL] + d[u + k + 1..];
    hide Used, Length, Text, Appended;
    assert NUL !in b[..k];
    TextOf(d[..u] + b[..k], d[u + k + 1..]);
  }

  lemma NoNulBefore(d: seq<char>, n: nat)
    requires n <= |d|
    ensures NUL !in d[..Used(d, n)]
  {
    assert NUL in d[..n] ==> d[..n][..Used(d, n)] == d[..Used(d, n)];
  }

  /** What stands before the first NUL. */
  lemma TextOf(t: string, rest: seq<char>)
    requires NUL !in t
    ensures NUL in t + [NUL] + rest && Text(t + [NUL] + rest) == t
  {
    var s := t + [NUL] + rest;
    assert s[|t|] == NUL && forall i | 0 <= i < |t| :: s[i] == t[i];
    LengthIs(s, |t|);
  }

  /** For a destination with a NUL in reach the result is the whole of both texts exactly when
      the return value is below the size; without one nothing is written. */
  lemma AppendTruncatesIff(d: seq<char>, b: string, n: nat)
    requires n <= |d| && NUL !in b
    ensures Used(d, n) == n ==> Appended(d, b, n) == d
    ensures Used(d, n) < n ==>
              && NUL in d && NUL in Appended(d, b, n)
              && (Text(Appended(d, b, n)) == Text(d) + b <==> Used(d, n) + |b| < n)
  {
    hide Used, Length, Text, Appended;
    if Used(d, n) < n {
      AppendReads(d, b, n);
      var k := Min(n - Used(d, n) - 1, |b|);
      assert k < |b| ==> |Text(d) + b[..k]| < |Text(d) + b|;
      assert k == |b| ==> b[..k] == b;
    }
  }

  /** The two calls together keep everything exactly when both return values are below the size. */
  lemma BothTruncateIff(d: seq<char>, a: string, b: string, n: nat)
    requires 0 < n <= |d| && NUL !in a && NUL !in b
    ensures var c := Appended(Copied(d, a, n), b, n);
            && NUL in c
            && (Text(c) == a + b <==> |a| < n && Used(Copied(d, a, n), n) + |b| < n)
  {
    hide Copied, Appended, Used, Text;
    CopyThenAppend(d, a, b, n);
    CopyTruncatesIff(d, a + b, n);
  }
}
