/**
 * The two pieces of java.lang.String that the lending code relies on:
 * `trim()` (applied to every id typed at the console) and
 * `equalsIgnoreCase` (used for every id and tag comparison), plus the
 * "first element whose id matches" scan that the library repeats over its lists.
 */
module JavaText {
  import opened Wrappers

  /** `String.trim` removes every leading and trailing char whose code is at most U+0020. */
  predicate IsTrimmed(c: char) {
    c <= ' '
  }

  function TrimStart(s: string): (r: string)
    ensures |r| <= |s| && r == s[|s| - |r|..]
    ensures forall i :: 0 <= i < |s| - |r| ==> IsTrimmed(s[i])
    ensures r == [] || !IsTrimmed(r[0])
  {
    if s != [] && IsTrimmed(s[0]) then TrimStart(s[1..]) else s
  }

  function TrimEnd(s: string): (r: string)
    ensures |r| <= |s| && r == s[..|r|]
    ensures forall i :: |r| <= i < |s| ==> IsTrimmed(s[i])
    ensures r == [] || !IsTrimmed(r[|r| - 1])
  {
    if s != [] && IsTrimmed(s[|s| - 1]) then TrimEnd(s[..|s| - 1]) else s
  }

  /** Java's `String.trim()`. */
  function Trim(s: string): (r: string)
  {
    TrimEnd(TrimStart(s))
  }

  /** What `trim()` keeps is a slice of the input, after the blanks `TrimStart` drops. */
  lemma TrimIsSlice(s: string)
    ensures var lo, r := |s| - |TrimStart(s)|, Trim(s);
      lo + |r| <= |s| && r == s[lo..lo + |r|]
  {
    var t := TrimStart(s);
    var r := TrimEnd(t);
    var lo := |s| - |t|;
    assert t == s[lo..];
    forall j | 0 <= j < |r| ensures r[j] == s[lo + j] {
      assert r[j] == t[j];
    }
  }

  /** Everything after the slice `trim()` keeps is blank. */
  lemma TrimDropsBlankTail(s: string)
    ensures var lo, r := |s| - |TrimStart(s)|, Trim(s);
      forall i :: lo + |r| <= i < |s| ==> IsTrimmed(s[i])
  {
    var t := TrimStart(s);
    var r := TrimEnd(t);
    var lo := |s| - |t|;
    assert t == s[lo..];
    forall i | lo + |r| <= i < |s| ensures IsTrimmed(s[i]) {
      assert s[i] == t[i - lo];
    }
  }

  /** What `trim()` keeps neither starts nor ends with a blank. */
  lemma TrimKeepsNoBlankEnds(s: string)
    ensures var r := Trim(s); r == [] || (!IsTrimmed(r[0]) && !IsTrimmed(r[|r| - 1]))
  {
    var t := TrimStart(s);
    var r := TrimEnd(t);
    if r != [] {
      assert r == t[..|r|];
      assert r[0] == t[0];
    }
  }

  /**
   * `trim()` keeps exactly the middle of the string: it drops a run of
   * blanks on each side and nothing else, and what remains neither starts
   * nor ends with a blank.
   */
  lemma TrimSlice(s: string)
    ensures var lo, r := |s| - |TrimStart(s)|, Trim(s);
      && lo + |r| <= |s| && r == s[lo..lo + |r|]
      && (forall i :: 0 <= i < lo ==> IsTrimmed(s[i]))
      && (forall i :: lo + |r| <= i < |s| ==> IsTrimmed(s[i]))
      && (r == [] || (!IsTrimmed(r[0]) && !IsTrimmed(r[|r| - 1])))
  {
    TrimIsSlice(s);
    TrimDropsBlankTail(s);
    TrimKeepsNoBlankEnds(s);
  }

  /** Trimming a string that has no blank at either end leaves it as it is. */
  lemma TrimNoBlanks(s: string)
    requires s == [] || (!IsTrimmed(s[0]) && !IsTrimmed(s[|s| - 1]))
    ensures Trim(s) == s
  {
  }

  /** `trim()` is idempotent. */
  lemma TrimIdempotent(s: string)
    ensures Trim(Trim(s)) == Trim(s)
  {
    TrimSlice(s);
    TrimNoBlanks(Trim(s));
  }

  /** ASCII lower-casing of one char; every other char is its own lower case. */
  function LowerChar(c: char): (d: char)
  {
    if 'A' <= c <= 'Z' then (c as int - 'A' as int + 'a' as int) as char else c
  }

  function Lower(s: string): (r: string)
    ensures |r| == |s|
    ensures forall i :: 0 <= i < |s| ==> r[i] == LowerChar(s[i])
  {
    if s == [] then [] else [LowerChar(s[0])] + Lower(s[1..])
  }

  /** Java's `a.equalsIgnoreCase(b)`, for ASCII letters: same length, and char by char equal up to case. */
  predicate EqualsIgnoreCase(a: string, b: string) {
    |a| == |b| && forall i :: 0 <= i < |a| ==> LowerChar(a[i]) == LowerChar(b[i])
  }

  /** The char-by-char comparison agrees with comparing the lower-cased strings. */
  lemma EqualsIgnoreCaseIsLowerEquality(a: string, b: string)
    ensures EqualsIgnoreCase(a, b) <==> Lower(a) == Lower(b)
  {
    if Lower(a) == Lower(b) {
      assert |a| == |Lower(a)|;
      forall i | 0 <= i < |a| ensures LowerChar(a[i]) == LowerChar(b[i]) {
        assert Lower(a)[i] == Lower(b)[i];
      }
    }
  }

  /** Ignoring case is an equivalence: reflexive, symmetric and transitive. */
  lemma EqualsIgnoreCaseEquivalence(a: string, b: string, c: string)
    ensures EqualsIgnoreCase(a, a)
    ensures EqualsIgnoreCase(a, b) ==> EqualsIgnoreCase(b, a)
    ensures EqualsIgnoreCase(a, b) && EqualsIgnoreCase(b, c) ==> EqualsIgnoreCase(a, c)
  {
    EqualsIgnoreCaseIsLowerEquality(a, b);
    EqualsIgnoreCaseIsLowerEquality(b, c);
    EqualsIgnoreCaseIsLowerEquality(a, c);
    EqualsIgnoreCaseIsLowerEquality(a, a);
    EqualsIgnoreCaseIsLowerEquality(b, a);
  }

  /**
   * The index of the first id that equals `key` ignoring case: the element a
   * Java for-each loop with `equalsIgnoreCase` stops at.
   */
  function FirstMatch(ids: seq<string>, key: string): (r: Option<nat>)
    ensures r.Some? ==> r.value < |ids| && EqualsIgnoreCase(ids[r.value], key)
    ensures r.Some? ==> forall j :: 0 <= j < r.value ==> !EqualsIgnoreCase(ids[j], key)
    ensures r.None? <==> forall j :: 0 <= j < |ids| ==> !EqualsIgnoreCase(ids[j], key)
  {
    if ids == [] then None
    else if EqualsIgnoreCase(ids[0], key) then Some(0)
    else match FirstMatch(ids[1..], key)
      case None => None
      case Some(k) => Some(k + 1)
  }

  /**
   * The for-each search loop itself: scans `ids` in order and stops at the
   * first id equal to `key` ignoring case.
   */
  method FindFirst(ids: seq<string>, key: string) returns (r: Option<nat>)
    ensures r == FirstMatch(ids, key)
  {
    var k := 0;
    while k < |ids|
      invariant 0 <= k <= |ids|
      invariant forall j :: 0 <= j < k ==> !EqualsIgnoreCase(ids[j], key)
    {
      if EqualsIgnoreCase(ids[k], key) {
        return Some(k);
      }
      k := k + 1;
    }
    return None;
  }
}
