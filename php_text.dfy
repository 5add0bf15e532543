/**
 * The PHP string built-ins the reader relies on: trim, strpos with a
 * one-character needle, substr_count with a one-character needle and
 * strtolower. PHP strings are byte strings; here each character stands
 * for one byte.
 */
module PhpText {
  import opened Wrappers

  /** The characters trim() strips by default: space, tab, LF, CR, NUL and vertical tab. */
  predicate IsTrimChar(c: char) {
    c == ' ' || c == '\t' || c == '\n' || c == '\r' || c == '\0' || c == '\U{000B}'
  }

  predicate AllTrimChars(s: string) {
    forall i :: 0 <= i < |s| ==> IsTrimChar(s[i])
  }

  /** A string that trim() leaves as it is: empty, or neither end is a trim character. */
  predicate IsTrimmed(s: string) {
    s == [] || (!IsTrimChar(s[0]) && !IsTrimChar(s[|s| - 1]))
  }

  /** ltrim(): the longest suffix of s that does not start with a trim character. */
  function TrimLeft(s: string): string {
    if s != [] && IsTrimChar(s[0]) then TrimLeft(s[1..]) else s
  }

  /** rtrim(): the longest prefix of s that does not end with a trim character. */
  function TrimRight(s: string): string {
    if s != [] && IsTrimChar(s[|s| - 1]) then TrimRight(s[..|s| - 1]) else s
  }

  /**
   * ltrim() keeps a suffix that does not start with a trim character, and
   * what it strips in front of it is trim characters only.
   */
  lemma {:induction false} TrimLeftStrips(s: string)
    ensures var r := TrimLeft(s); |r| <= |s| && r == s[|s| - |r|..]
    ensures var r := TrimLeft(s); r != [] ==> !IsTrimChar(r[0])
    ensures AllTrimChars(s[..|s| - |TrimLeft(s)|])
  {
    if s != [] && IsTrimChar(s[0]) {
      TrimLeftStrips(s[1..]);
      var k := |s| - |TrimLeft(s)|;
      assert s[..k] == [s[0]] + s[1..][..k - 1];
    }
  }

  /**
   * rtrim() keeps a prefix that does not end with a trim character, and
   * what it strips behind it is trim characters only.
   */
  lemma {:induction false} TrimRightStrips(s: string)
    ensures var r := TrimRight(s); |r| <= |s| && r == s[..|r|]
    ensures var r := TrimRight(s); r != [] ==> !IsTrimChar(r[|r| - 1])
    ensures AllTrimChars(s[|TrimRight(s)|..])
  {
    if s != [] && IsTrimChar(s[|s| - 1]) {
      TrimRightStrips(s[..|s| - 1]);
      var k := |TrimRight(s)|;
      assert s[k..] == s[..|s| - 1][k..] + [s[|s| - 1]];
    }
  }

  /** Where the text that trim() keeps begins. */
  function TrimStart(s: string): nat {
    TrimLeftStrips(s);
    |s| - |TrimLeft(s)|
  }

  /** trim(): what remains once the trim characters are stripped from both ends. */
  function Trim(s: string): string {
    TrimRight(TrimLeft(s))
  }

  /**
   * What trim() keeps is the middle of s: everything outside it is a trim
   * character, and it neither starts nor ends with one.
   */
  lemma TrimSpec(s: string)
    ensures var r := Trim(s);
      TrimStart(s) + |r| <= |s| && r == s[TrimStart(s)..TrimStart(s) + |r|] &&
      AllTrimChars(s[..TrimStart(s)]) && AllTrimChars(s[TrimStart(s) + |r|..]) &&
      IsTrimmed(r) && (r == [] <==> AllTrimChars(s))
  {
    var l := TrimLeft(s);
    var r := TrimRight(l);
    TrimLeftStrips(s);
    TrimRightStrips(l);
    assert s[TrimStart(s)..] == l;
    assert s[TrimStart(s) + |r|..] == l[|r|..];
    assert r == [] ==> s == s[..TrimStart(s)] + s[TrimStart(s)..];
  }

  /** Trim characters around an already trimmed string are exactly what trim() removes. */
  lemma {:induction false} TrimSurrounded(pre: string, s: string, post: string)
    requires AllTrimChars(pre) && AllTrimChars(post) && IsTrimmed(s)
    ensures Trim(pre + s + post) == s
  {
    if s == [] {
      assert AllTrimChars(pre + s + post);
      TrimSpec(pre + s + post);
    } else {
      TrimLeftSkips(pre, s + post);
      assert pre + s + post == pre + (s + post);
      TrimRightSkips(s, post);
    }
  }

  lemma {:induction false} TrimLeftSkips(pre: string, s: string)
    requires AllTrimChars(pre)
    requires s == [] || !IsTrimChar(s[0])
    ensures TrimLeft(pre + s) == s
  {
    if pre != [] {
      assert (pre + s)[1..] == pre[1..] + s;
      TrimLeftSkips(pre[1..], s);
    } else {
      assert pre + s == s;
    }
  }

  lemma {:induction false} TrimRightSkips(s: string, post: string)
    requires AllTrimChars(post)
    requires s == [] || !IsTrimChar(s[|s| - 1])
    ensures TrimRight(s + post) == s
  {
    if post != [] {
      assert (s + post)[..|s + post| - 1] == s + post[..|post| - 1];
      TrimRightSkips(s, post[..|post| - 1]);
    } else {
      assert s + post == s;
    }
  }

  /** trim() on one character. */
  lemma TrimOne(s: string)
    requires |s| == 1
    ensures Trim(s) == if IsTrimChar(s[0]) then [] else s
  {
    if IsTrimChar(s[0]) {
      assert TrimLeft(s) == TrimLeft(s[1..]) == [];
    } else {
      assert TrimLeft(s) == s && s[|s| - 1] == s[0];
    }
  }

  /** trim() on two characters. */
  lemma TrimTwo(s: string)
    requires |s| == 2
    ensures !IsTrimChar(s[0]) && !IsTrimChar(s[1]) ==> Trim(s) == s
    ensures IsTrimChar(s[0]) && !IsTrimChar(s[1]) ==> Trim(s) == s[1..]
    ensures !IsTrimChar(s[0]) && IsTrimChar(s[1]) ==> Trim(s) == s[..1]
    ensures IsTrimChar(s[0]) && IsTrimChar(s[1]) ==> Trim(s) == []
  {
    if IsTrimChar(s[0]) {
      assert TrimLeft(s) == TrimLeft(s[1..]);
      TrimOne(s[1..]);
    } else {
      assert TrimLeft(s) == s;
      if IsTrimChar(s[1]) {
        assert TrimRight(s) == TrimRight(s[..1]);
        TrimOne(s[..1]);
      }
    }
  }

  /**
   * strpos() with a one-character needle: the index of the first
   * occurrence of c in s, or None (PHP's `false`) when there is none.
   */
  function FirstIndexOf(s: string, c: char): (r: Option<nat>)
    ensures r.None? <==> c !in s
    ensures r.Some? ==> r.value < |s| && s[r.value] == c && c !in s[..r.value]
  {
    if s == [] then None
    else if s[0] == c then Some(0)
    else match FirstIndexOf(s[1..], c)
      case None => None
      case Some(i) =>
        assert s[..i + 1] == [s[0]] + s[1..][..i];
        Some(i + 1)
  }

  /** strpos() stops at an occurrence of c with none before it. */
  lemma {:induction false} FirstIndexOfAt(s: string, c: char, k: nat)
    requires k < |s| && s[k] == c && c !in s[..k]
    ensures FirstIndexOf(s, c) == Some(k)
  {
    if k > 0 {
      assert s[0] == s[..k][0];
      assert s[1..][..k - 1] == s[..k][1..];
      FirstIndexOfAt(s[1..], c, k - 1);
    }
  }

  /** substr_count() with a one-character needle: how often c occurs in s. */
  function SubstrCount(s: string, c: char): nat {
    if s == [] then 0 else (if s[0] == c then 1 else 0) + SubstrCount(s[1..], c)
  }

  /** substr_count() counts the occurrences of c: its multiplicity in s. */
  lemma {:induction false} SubstrCountMultiset(s: string, c: char)
    ensures SubstrCount(s, c) == multiset(s)[c]
  {
    if s != [] {
      assert s == [s[0]] + s[1..];
      SubstrCountMultiset(s[1..], c);
    }
  }

  /** A string without c counts none. */
  lemma {:induction false} SubstrCountAbsent(s: string, c: char)
    requires c !in s
    ensures SubstrCount(s, c) == 0
  {
    if s != [] {
      assert s[0] != c && c !in s[1..];
      SubstrCountAbsent(s[1..], c);
    }
  }

  /** Counting in two pieces adds up to counting in the whole. */
  lemma {:induction false} SubstrCountConcat(a: string, b: string, c: char)
    ensures SubstrCount(a + b, c) == SubstrCount(a, c) + SubstrCount(b, c)
  {
    if a != [] {
      assert (a + b)[1..] == a[1..] + b;
      SubstrCountConcat(a[1..], b, c);
    } else {
      assert a + b == b;
    }
  }

  /** Counting up to j is counting up to i and then from i to j. */
  lemma SubstrCountSplit(s: string, i: nat, j: nat, c: char)
    requires i <= j <= |s|
    ensures SubstrCount(s[..j], c) == SubstrCount(s[..i], c) + SubstrCount(s[i..j], c)
  {
    assert s[..j] == s[..i] + s[i..j];
    SubstrCountConcat(s[..i], s[i..j], c);
  }

  /** strtolower() on one byte: only the ASCII capitals change. */
  function LowerChar(c: char): char {
    if 'A' <= c <= 'Z' then (c as int + 32) as char else c
  }

  function Lower(s: string): (r: string)
    ensures |r| == |s|
    ensures forall i :: 0 <= i < |s| ==> r[i] == LowerChar(s[i])
  {
    seq(|s|, i requires 0 <= i < |s| => LowerChar(s[i]))
  }

  predicate IsCapital(c: char) {
    'A' <= c <= 'Z'
  }

  /** strtolower() leaves no capital behind, and lowering twice is lowering once. */
  lemma LowerHasNoCapitals(s: string)
    ensures forall i :: 0 <= i < |s| ==> !IsCapital(Lower(s)[i])
    ensures Lower(Lower(s)) == Lower(s)
  {
  }

  /** strtolower() changes exactly the strings that hold a capital. */
  lemma LowerFixed(s: string)
    ensures Lower(s) == s <==> forall i :: 0 <= i < |s| ==> !IsCapital(s[i])
  {
    if Lower(s) == s {
      forall i | 0 <= i < |s| ensures !IsCapital(s[i]) {
        assert Lower(s)[i] == s[i];
      }
    }
  }

  /** Two strings that differ only in the case of their letters lower to the same string. */
  lemma LowerCaseBlind(s: string, t: string)
    requires |s| == |t|
    requires forall i :: 0 <= i < |s| ==> s[i] == t[i] || LowerChar(s[i]) == t[i] || s[i] == LowerChar(t[i])
    ensures Lower(s) == Lower(t)
  {
  }

  /** The first n characters of s, or all of s when it is shorter: substr($s, 0, n). */
  function Prefix(s: string, n: nat): (r: string)
    ensures |r| == if |s| < n then |s| else n
    ensures r <= s
  {
    if |s| < n then s else s[..n]
  }

}
