/** The PHP string built-ins the namespace command relies on: `str_contains`,
    `str_replace` (string and array forms), `trim` with a character list, and
    the backslash doubling used to write a namespace into JSON. */
module PhpStrings {

  /** PHP's namespace separator. */
  const Backslash: char := '\\'

  /** `s` occurs in `x` starting at index `i`. */
  predicate OccursAt(x: string, s: string, i: int)
  {
    0 <= i && i + |s| <= |x| && x[i..i + |s|] == s
  }

  /** PHP's `str_contains($x, $s)` (and Finder's `contains` for a plain string). */
  predicate Contains(x: string, s: string)
  {
    exists i | 0 <= i <= |x| :: OccursAt(x, s, i)
  }

  lemma OccursAtTail(x: string, s: string, i: int)
    requires |x| > 0 && i >= 1
    ensures OccursAt(x, s, i) <==> OccursAt(x[1..], s, i - 1)
  {
    if i + |s| <= |x| {
      assert x[1..][i - 1..i - 1 + |s|] == x[i..i + |s|];
    }
  }

  /** When `s` does not start `x`, it occurs in `x` exactly when it occurs in the tail. */
  lemma ContainsTail(x: string, s: string)
    requires |x| > 0 && !OccursAt(x, s, 0)
    ensures Contains(x, s) <==> Contains(x[1..], s)
  {
    if Contains(x, s) {
      var i :| 0 <= i <= |x| && OccursAt(x, s, i);
      OccursAtTail(x, s, i);
      assert OccursAt(x[1..], s, i - 1);
    }
    if Contains(x[1..], s) {
      var j :| 0 <= j <= |x[1..]| && OccursAt(x[1..], s, j);
      OccursAtTail(x, s, j + 1);
      assert OccursAt(x, s, j + 1);
    }
  }

  /** Containment is transitive. */
  lemma ContainsTrans(x: string, y: string, z: string)
    requires Contains(x, y) && Contains(y, z)
    ensures Contains(x, z)
  {
    var i :| 0 <= i <= |x| && OccursAt(x, y, i);
    var j :| 0 <= j <= |y| && OccursAt(y, z, j);
    forall k | 0 <= k < |z| ensures x[i + j + k] == z[k] {
      assert x[i..i + |y|][j + k] == y[j + k];
      assert y[j..j + |z|][k] == y[j + k];
    }
    assert x[i + j..i + j + |z|] == z;
    assert OccursAt(x, z, i + j);
  }

  /** A string occurs at the end of any concatenation it ends. */
  lemma ContainsSuffix(a: string, b: string)
    ensures Contains(a + b, b)
  {
    assert (a + b)[|a|..|a| + |b|] == b;
    assert OccursAt(a + b, b, |a|);
  }

  lemma OccursAtStart(x: string, s: string)
    requires |s| <= |x|
    ensures OccursAt(x, s, 0) <==> x[..|s|] == s
  {
    assert x[0..|s|] == x[..|s|];
  }

  /** PHP's `str_replace($search, $replace, $subject)` on strings: the subject is
      scanned from the left and every non-overlapping occurrence of `search` is
      replaced by `replace`; an empty `search` leaves the subject unchanged. */
  function StrReplace(subject: string, search: string, replace: string): string
    decreases |subject|
  {
    if search == [] || |subject| < |search| then subject
    else if subject[..|search|] == search then replace + StrReplace(subject[|search|..], search, replace)
    else [subject[0]] + StrReplace(subject[1..], search, replace)
  }

  /** The number of non-overlapping occurrences of `s` that the left-to-right scan of
      `StrReplace` finds and replaces (zero for an empty `s`, which `StrReplace` leaves
      alone). */
  function SubstrCount(x: string, s: string): nat
    decreases |x|
  {
    if s == [] || |x| < |s| then 0
    else if x[..|s|] == s then 1 + SubstrCount(x[|s|..], s)
    else SubstrCount(x[1..], s)
  }

  /** Replacing a string by itself changes nothing. */
  lemma {:induction false} ReplaceWithItself(x: string, s: string)
    ensures StrReplace(x, s, s) == x
    decreases |x|
  {
    if s == [] || |x| < |s| {
    } else if x[..|s|] == s {
      ReplaceWithItself(x[|s|..], s);
      assert x == x[..|s|] + x[|s|..];
    } else {
      ReplaceWithItself(x[1..], s);
      assert x == [x[0]] + x[1..];
    }
  }

  /** A subject that does not contain the search string is returned unchanged. */
  lemma {:induction false} ReplaceAbsent(x: string, s: string, r: string)
    requires !Contains(x, s)
    ensures StrReplace(x, s, r) == x
    decreases |x|
  {
    if s == [] || |x| < |s| {
    } else {
      assert !OccursAt(x, s, 0);
      OccursAtStart(x, s);
      ContainsTail(x, s);
      ReplaceAbsent(x[1..], s, r);
      assert x == [x[0]] + x[1..];
    }
  }

  /** Each replaced occurrence changes the length by `|r| - |s|`. */
  lemma {:induction false} ReplaceLength(x: string, s: string, r: string)
    ensures |StrReplace(x, s, r)| == |x| + SubstrCount(x, s) * (|r| - |s|)
    decreases |x|
  {
    if s == [] || |x| < |s| {
    } else if x[..|s|] == s {
      ReplaceLength(x[|s|..], s, r);
      ProductSucc(SubstrCount(x[|s|..], s), |r| - |s|);
    } else {
      ReplaceLength(x[1..], s, r);
    }
  }

  /** The scan copies a prefix in which the first character of the search term does
      not occur. */
  lemma {:induction false} ReplaceSkipsPrefix(p: string, q: string, s: string, r: string)
    requires s != [] && s[0] !in p
    ensures StrReplace(p + q, s, r) == p + StrReplace(q, s, r)
    decreases |p|
  {
    if p == [] {
      assert p + q == q;
    } else if |p + q| < |s| {
    } else {
      var x := p + q;
      assert x[..|s|][0] == p[0] != s[0];
      assert StrReplace(x, s, r) == [x[0]] + StrReplace(x[1..], s, r);
      assert x[1..] == p[1..] + q;
      assert s[0] !in p[1..];
      ReplaceSkipsPrefix(p[1..], q, s, r);
      assert p + StrReplace(q, s, r) == [p[0]] + (p[1..] + StrReplace(q, s, r));
    }
  }

  lemma ProductSucc(c: int, d: int)
    ensures (1 + c) * d == d + c * d
  {
  }

  /** The scan finds an occurrence exactly when the search string occurs at all. */
  lemma {:induction false} SubstrCountPositive(x: string, s: string)
    requires s != []
    ensures SubstrCount(x, s) > 0 <==> Contains(x, s)
    decreases |x|
  {
    if |x| < |s| {
      forall i | 0 <= i <= |x| ensures !OccursAt(x, s, i) {}
    } else {
      OccursAtStart(x, s);
      if x[..|s|] != s {
        ContainsTail(x, s);
        SubstrCountPositive(x[1..], s);
      }
    }
  }

  lemma {:induction false} ReplaceChangesEqualLength(x: string, s: string, r: string)
    requires s != [] && s != r && |r| == |s| && Contains(x, s)
    ensures StrReplace(x, s, r) != x
    decreases |x|
  {
    var i :| 0 <= i <= |x| && OccursAt(x, s, i);
    assert |s| <= |x|;
    OccursAtStart(x, s);
    if x[..|s|] == s {
      assert StrReplace(x, s, r)[..|s|] == r;
    } else {
      ContainsTail(x, s);
      ReplaceChangesEqualLength(x[1..], s, r);
      assert StrReplace(x, s, r)[1..] == StrReplace(x[1..], s, r);
    }
  }

  /** `str_replace` leaves its subject unchanged exactly when the search string is
      empty, equals its replacement, or does not occur in the subject. */
  lemma ReplaceUnchangedIff(x: string, s: string, r: string)
    ensures StrReplace(x, s, r) == x <==> (s == [] || s == r || !Contains(x, s))
  {
    if s == [] {
    } else if s == r {
      ReplaceWithItself(x, s);
    } else if !Contains(x, s) {
      ReplaceAbsent(x, s, r);
    } else if |r| == |s| {
      ReplaceChangesEqualLength(x, s, r);
    } else {
      ReplaceLength(x, s, r);
      SubstrCountPositive(x, s);
      ProductNonZero(SubstrCount(x, s), |r| - |s|);
    }
  }

  /** When the search string occurs, the replacement appears in the result. */
  lemma {:induction false} ReplaceInsertsReplacement(x: string, s: string, r: string)
    requires s != [] && Contains(x, s)
    ensures Contains(StrReplace(x, s, r), r)
    decreases |x|
  {
    var i :| 0 <= i <= |x| && OccursAt(x, s, i);
    assert |s| <= |x|;
    OccursAtStart(x, s);
    var y := StrReplace(x, s, r);
    if x[..|s|] == s {
      assert y[0..|r|] == r;
      assert OccursAt(y, r, 0);
    } else {
      ContainsTail(x, s);
      ReplaceInsertsReplacement(x[1..], s, r);
      var t := StrReplace(x[1..], s, r);
      assert y == [x[0]] + t;
      var j :| 0 <= j <= |t| && OccursAt(t, r, j);
      assert y[j + 1..j + 1 + |r|] == t[j..j + |r|];
      assert OccursAt(y, r, j + 1);
    }
  }

  lemma ProductNonZero(c: int, d: int)
    requires c > 0 && d != 0
    ensures c * d != 0
  {
  }

  /** The replacement PHP pairs with the first search term: once the replacement
      array runs out, the empty string is used. */
  function FirstOrEmpty(replacements: seq<string>): string
  {
    if replacements == [] then "" else replacements[0]
  }

  function Rest(replacements: seq<string>): seq<string>
  {
    if replacements == [] then [] else replacements[1..]
  }

  /** PHP's `str_replace(array $search, array $replace, $subject)`: the pairs are
      applied in order, each to the output of the previous one. */
  function StrReplaceArray(subject: string, searches: seq<string>, replacements: seq<string>): string
    decreases |searches|
  {
    if searches == [] then subject
    else StrReplaceArray(StrReplace(subject, searches[0], FirstOrEmpty(replacements)), searches[1..], Rest(replacements))
  }

  /** The string form of `str_replace` is the array form with one pair. */
  lemma ReplaceArraySingle(x: string, s: string, r: string)
    ensures StrReplaceArray(x, [s], [r]) == StrReplace(x, s, r)
  {
    assert [s][1..] == [];
  }

  /** Two pairs: the second pair is applied to the result of the first. */
  lemma ReplaceArrayPair(x: string, s1: string, s2: string, r1: string, r2: string)
    ensures StrReplaceArray(x, [s1, s2], [r1, r2]) == StrReplace(StrReplace(x, s1, r1), s2, r2)
  {
    assert [s1, s2][1..] == [s2];
    assert [r1, r2][1..] == [r2];
    ReplaceArraySingle(StrReplace(x, s1, r1), s2, r2);
  }

  /** Replacing every term by itself changes nothing. */
  lemma {:induction false} ReplaceArrayWithItself(x: string, terms: seq<string>)
    ensures StrReplaceArray(x, terms, terms) == x
    decreases |terms|
  {
    if terms != [] {
      ReplaceWithItself(x, terms[0]);
      ReplaceArrayWithItself(x, terms[1..]);
    }
  }

  /** A subject containing none of the search terms is returned unchanged. */
  lemma {:induction false} ReplaceArrayAbsent(x: string, searches: seq<string>, replacements: seq<string>)
    requires forall i :: 0 <= i < |searches| ==> !Contains(x, searches[i])
    ensures StrReplaceArray(x, searches, replacements) == x
    decreases |searches|
  {
    if searches != [] {
      ReplaceAbsent(x, searches[0], FirstOrEmpty(replacements));
      assert forall i :: 0 <= i < |searches[1..]| ==> searches[1..][i] == searches[i + 1];
      ReplaceArrayAbsent(x, searches[1..], Rest(replacements));
    }
  }

  /** Every character of `x` is a backslash. */
  predicate IsBackslashes(x: string)
  {
    forall i :: 0 <= i < |x| ==> x[i] == Backslash
  }

  /** PHP's `ltrim($x, '\\')`: strips the longest run of leading backslashes. */
  function TrimLeft(x: string): (r: string)
    ensures |r| <= |x| && r == x[|x| - |r|..]
    ensures IsBackslashes(x[..|x| - |r|])
    ensures r != [] ==> r[0] != Backslash
    decreases |x|
  {
    if x != [] && x[0] == Backslash then
      var r := TrimLeft(x[1..]);
      assert x[..|x| - |r|] == [x[0]] + x[1..][..|x| - 1 - |r|];
      r
    else x
  }

  /** PHP's `rtrim($x, '\\')`: strips the longest run of trailing backslashes. */
  function TrimRight(x: string): (r: string)
    ensures |r| <= |x| && r == x[..|r|]
    ensures IsBackslashes(x[|r|..])
    ensures r != [] ==> r[|r| - 1] != Backslash
    decreases |x|
  {
    if x != [] && x[|x| - 1] == Backslash then
      var r := TrimRight(x[..|x| - 1]);
      assert x[|r|..] == x[..|x| - 1][|r|..] + [x[|x| - 1]];
      r
    else x
  }

  /** PHP's `trim($x, '\\')`: the result neither starts nor ends with a backslash. */
  function Trim(x: string): (r: string)
    ensures r != [] ==> r[0] != Backslash && r[|r| - 1] != Backslash
  {
    TrimRight(TrimLeft(x))
  }

  /** Only backslashes are cut off, on either side: `x` is a run of backslashes,
      then `Trim(x)`, then another run of backslashes. */
  lemma TrimKeepsInfix(x: string)
    ensures var k := |x| - |TrimLeft(x)|;
            0 <= k <= |x| && IsBackslashes(x[..k])
            && |Trim(x)| <= |x| - k && x[k..][..|Trim(x)|] == Trim(x) && IsBackslashes(x[k..][|Trim(x)|..])
  {
    assert Trim(x) == TrimRight(TrimLeft(x));
  }

  /** A string that neither starts nor ends with a backslash is its own trim. */
  lemma TrimUnchanged(x: string)
    requires x != [] ==> x[0] != Backslash && x[|x| - 1] != Backslash
    ensures Trim(x) == x
  {
  }

  /** Trimming twice is trimming once. */
  lemma TrimIdempotent(x: string)
    ensures Trim(Trim(x)) == Trim(x)
  {
    TrimUnchanged(Trim(x));
  }

  /** `str_replace('\\', '\\\\', $x)`: every backslash of `x` doubled. */
  function EscapeBackslashes(x: string): string
  {
    StrReplace(x, [Backslash], [Backslash, Backslash])
  }

  /** The inverse of `EscapeBackslashes`, as a JSON reader undoes it: every pair of
      backslashes becomes one. */
  function UnescapeBackslashes(y: string): string
  {
    StrReplace(y, [Backslash, Backslash], [Backslash])
  }

  lemma EscapeCons(c: char, x: string)
    ensures EscapeBackslashes([c] + x) == (if c == Backslash then [Backslash, Backslash] else [c]) + EscapeBackslashes(x)
  {
    var y := [c] + x;
    assert y[..1] == [c];
    assert y[1..] == x;
  }

  lemma UnescapePair(y: string)
    ensures UnescapeBackslashes([Backslash, Backslash] + y) == [Backslash] + UnescapeBackslashes(y)
  {
    var z := [Backslash, Backslash] + y;
    assert z[..2] == [Backslash, Backslash];
    assert z[2..] == y;
  }

  lemma UnescapeCons(c: char, y: string)
    requires c != Backslash
    ensures UnescapeBackslashes([c] + y) == [c] + UnescapeBackslashes(y)
  {
    var z := [c] + y;
    assert z[1..] == y;
    if |z| >= 2 {
      assert z[..2][0] == c;
    }
  }

  /** Escaping adds exactly one character per backslash. */
  lemma {:induction false} EscapeLength(x: string)
    ensures |EscapeBackslashes(x)| == |x| + multiset(x)[Backslash]
    decreases |x|
  {
    if x != [] {
      EscapeCons(x[0], x[1..]);
      EscapeLength(x[1..]);
      assert x == [x[0]] + x[1..];
      assert multiset(x) == multiset([x[0]]) + multiset(x[1..]);
    }
  }

  /** Escaping is the identity on strings without backslashes. */
  lemma EscapeNoBackslash(x: string)
    requires Backslash !in x
    ensures EscapeBackslashes(x) == x
  {
    forall i | 0 <= i <= |x| ensures !OccursAt(x, [Backslash], i) {
      if i + 1 <= |x| {
        assert x[i..i + 1] == [x[i]];
      }
    }
    ReplaceAbsent(x, [Backslash], [Backslash, Backslash]);
  }

  /** Undoubling restores the original string. */
  lemma {:induction false} UnescapeEscape(x: string)
    ensures UnescapeBackslashes(EscapeBackslashes(x)) == x
    decreases |x|
  {
    if x != [] {
      EscapeCons(x[0], x[1..]);
      UnescapeEscape(x[1..]);
      if x[0] == Backslash {
        UnescapePair(EscapeBackslashes(x[1..]));
      } else {
        UnescapeCons(x[0], EscapeBackslashes(x[1..]));
      }
      assert x == [x[0]] + x[1..];
    }
  }

  /** Escaping works character by character, so it distributes over concatenation. */
  lemma {:induction false} EscapeConcat(a: string, b: string)
    ensures EscapeBackslashes(a + b) == EscapeBackslashes(a) + EscapeBackslashes(b)
    decreases |a|
  {
    if a != [] {
      var prefix := if a[0] == Backslash then [Backslash, Backslash] else [a[0]];
      calc {
        EscapeBackslashes(a + b);
        { assert a + b == [a[0]] + (a[1..] + b); }
        EscapeBackslashes([a[0]] + (a[1..] + b));
        { EscapeCons(a[0], a[1..] + b); }
        prefix + EscapeBackslashes(a[1..] + b);
        { EscapeConcat(a[1..], b); }
        prefix + (EscapeBackslashes(a[1..]) + EscapeBackslashes(b));
        (prefix + EscapeBackslashes(a[1..])) + EscapeBackslashes(b);
        { EscapeCons(a[0], a[1..]); assert a == [a[0]] + a[1..]; }
        EscapeBackslashes(a) + EscapeBackslashes(b);
      }
    } else {
      assert a + b == b;
    }
  }
}
