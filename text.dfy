/** The Python string operations that `lookup_constant` relies on -- `str.lower`,
    `str.strip`, `str.title` and the substring test `needle in hay` -- restricted
    to ASCII: only 'A'..'Z' and 'a'..'z' have a case, and only the ASCII
    whitespace characters are stripped. Every other character (for instance
    the 'π' of the pi record) is left as it is. */
module AsciiText {

  predicate IsUpper(c: char) { 'A' <= c <= 'Z' }

  predicate IsLower(c: char) { 'a' <= c <= 'z' }

  /** Python's "cased" characters, restricted to ASCII. */
  predicate IsLetter(c: char) { IsUpper(c) || IsLower(c) }

  function LowerChar(c: char): (d: char)
    ensures IsUpper(c) ==> IsLower(d) && d as int == c as int + 32
    ensures !IsUpper(c) ==> d == c
  {
    if IsUpper(c) then (c as int + 32) as char else c
  }

  function UpperChar(c: char): (d: char)
    ensures IsLower(c) ==> IsUpper(d) && d as int == c as int - 32
    ensures !IsLower(c) ==> d == c
  {
    if IsLower(c) then (c as int - 32) as char else c
  }

  /** `str.lower()`: every character is mapped through LowerChar, nothing else changes. */
  function Lower(s: string): (r: string)
    ensures |r| == |s|
    ensures forall i :: 0 <= i < |s| ==> r[i] == LowerChar(s[i])
  {
    if s == [] then [] else [LowerChar(s[0])] + Lower(s[1..])
  }

  /** Upper-casing, character by character through UpperChar. `lookup_constant`
      never upper-cases; this is only used to state that its answers ignore case. */
  function Upper(s: string): (r: string)
    ensures |r| == |s|
    ensures forall i :: 0 <= i < |s| ==> r[i] == UpperChar(s[i])
  {
    if s == [] then [] else [UpperChar(s[0])] + Upper(s[1..])
  }

  lemma LowerOfUpper(s: string)
    ensures Lower(Upper(s)) == Lower(s)
  {
    assert forall i :: 0 <= i < |s| ==> LowerChar(UpperChar(s[i])) == LowerChar(s[i]);
  }

  lemma LowerIdempotent(s: string)
    ensures Lower(Lower(s)) == Lower(s)
  {
  }

  lemma LowerAppend(a: string, b: string)
    ensures Lower(a + b) == Lower(a) + Lower(b)
  {
  }

  /** The characters `str.isspace()` accepts in the ASCII range:
      tab, line feed, vertical tab, form feed, carriage return (9..13),
      the four separators 0x1c..0x1f and the space (32). */
  predicate IsSpace(c: char)
    ensures IsSpace(c) ==> !IsLetter(c)
  {
    9 <= c as int <= 13 || 28 <= c as int <= 32
  }

  predicate AllSpace(s: string)
  {
    forall i :: 0 <= i < |s| ==> IsSpace(s[i])
  }

  /** Lower-casing leaves whitespace alone. */
  lemma LowerOfSpaces(s: string)
    requires AllSpace(s)
    ensures Lower(s) == s
  {
  }

  /** `str.lstrip()`: what is left does not start with whitespace. */
  function TrimStart(s: string): (r: string)
    ensures |r| <= |s|
    ensures r == [] || !IsSpace(r[0])
  {
    if s != [] && IsSpace(s[0]) then TrimStart(s[1..]) else s
  }

  /** `str.rstrip()`: what is left does not end with whitespace. */
  function TrimEnd(s: string): (r: string)
    ensures |r| <= |s|
    ensures r == [] || !IsSpace(r[|r| - 1])
  {
    if s != [] && IsSpace(s[|s| - 1]) then TrimEnd(s[..|s| - 1]) else s
  }

  /** `str.strip()`: what is left neither starts nor ends with whitespace. */
  function Strip(s: string): (r: string)
    ensures r == [] || (!IsSpace(r[0]) && !IsSpace(r[|r| - 1]))
  {
    var t := TrimStart(s);
    TrimEndRemovesTrailingSpaces(t);
    TrimEnd(t)
  }

  /** TrimStart removes exactly a whitespace prefix: the longest, by its contract. */
  lemma {:induction false} TrimStartRemovesLeadingSpaces(s: string)
    ensures TrimStart(s) == s[|s| - |TrimStart(s)|..]
    ensures AllSpace(s[..|s| - |TrimStart(s)|])
  {
    if s != [] && IsSpace(s[0]) {
      TrimStartRemovesLeadingSpaces(s[1..]);
      var k := |s| - |TrimStart(s)|;
      assert s[..k] == [s[0]] + s[1..][..k - 1];
    }
  }

  /** TrimEnd removes exactly a whitespace suffix: the longest, by its contract. */
  lemma {:induction false} TrimEndRemovesTrailingSpaces(s: string)
    ensures TrimEnd(s) <= s
    ensures AllSpace(s[|TrimEnd(s)|..])
  {
    if s != [] && IsSpace(s[|s| - 1]) {
      TrimEndRemovesTrailingSpaces(s[..|s| - 1]);
      var k := |TrimEnd(s)|;
      assert s[k..] == s[..|s| - 1][k..] + [s[|s| - 1]];
    }
  }

  /** What strip leaves is a piece of the original string. */
  lemma StripIsSubstring(s: string)
    ensures IsSubstring(Strip(s), s)
  {
    var t := TrimStart(s);
    var r := TrimEnd(t);
    TrimStartRemovesLeadingSpaces(s);
    TrimEndRemovesTrailingSpaces(t);
    var k := |s| - |t|;
    assert s[k..k + |r|] == t[..|r|] == r;
    assert OccursAt(r, s, k);
    assert Strip(s) == r;
  }

  /** Stripping a string with no upper-case letter leaves none. */
  lemma StripKeepsNoUpper(s: string)
    requires forall i :: 0 <= i < |s| ==> !IsUpper(s[i])
    ensures forall i :: 0 <= i < |Strip(s)| ==> !IsUpper(Strip(s)[i])
  {
    StripIsSubstring(s);
    var r := Strip(s);
    var k :| 0 <= k <= |s| - |r| && OccursAt(r, s, k);
    forall i | 0 <= i < |r|
      ensures !IsUpper(r[i])
    {
      assert r[i] == s[k + i];
    }
  }

  lemma {:induction false} TrimStartSkipsSpaces(p: string, x: string)
    requires AllSpace(p)
    ensures TrimStart(p + x) == TrimStart(x)
  {
    if p == [] {
      assert p + x == x;
    } else {
      assert (p + x)[0] == p[0];
      calc {
        TrimStart(p + x);
        TrimStart((p + x)[1..]);
        { assert (p + x)[1..] == p[1..] + x; }
        TrimStart(p[1..] + x);
        { TrimStartSkipsSpaces(p[1..], x); }
        TrimStart(x);
      }
    }
  }

  lemma {:induction false} TrimEndSkipsSpaces(x: string, s: string)
    requires AllSpace(s)
    ensures TrimEnd(x + s) == TrimEnd(x)
  {
    if s == [] {
      assert x + s == x;
    } else {
      var t := x + s;
      assert t[|t| - 1] == s[|s| - 1];
      calc {
        TrimEnd(t);
        TrimEnd(t[..|t| - 1]);
        { assert t[..|t| - 1] == x + s[..|s| - 1]; }
        TrimEnd(x + s[..|s| - 1]);
        { TrimEndSkipsSpaces(x, s[..|s| - 1]); }
        TrimEnd(x);
      }
    }
  }

  /** Trailing whitespace does not change what stripping both ends leaves. */
  lemma {:induction false} StripIgnoresTrailingSpaces(x: string, s: string)
    requires AllSpace(s)
    ensures TrimEnd(TrimStart(x + s)) == TrimEnd(TrimStart(x))
  {
    if x == [] {
      TrimStartSkipsSpaces(s, []);
      assert s + [] == s && x + s == s;
    } else if IsSpace(x[0]) {
      assert (x + s)[0] == x[0];
      assert (x + s)[1..] == x[1..] + s;
      StripIgnoresTrailingSpaces(x[1..], s);
    } else {
      assert (x + s)[0] == x[0];
      TrimEndSkipsSpaces(x, s);
    }
  }

  /** Padding a string with whitespace on either side does not change its stripped form. */
  lemma StripIgnoresPadding(p: string, x: string, s: string)
    requires AllSpace(p) && AllSpace(s)
    ensures Strip(p + x + s) == Strip(x)
  {
    assert p + x + s == p + (x + s);
    TrimStartSkipsSpaces(p, x + s);
    StripIgnoresTrailingSpaces(x, s);
  }

  /** Stripping leaves nothing exactly when the string is all whitespace. */
  lemma StripEmptyIffBlank(s: string)
    ensures Strip(s) == [] <==> AllSpace(s)
  {
    if AllSpace(s) {
      TrimStartSkipsSpaces(s, []);
      assert s + [] == s;
    }
    if Strip(s) == [] {
      var t := TrimStart(s);
      TrimStartRemovesLeadingSpaces(s);
      TrimEndRemovesTrailingSpaces(t);
      assert s == s[..|s| - |t|] + t;
    }
  }

  /** How `str.title()` treats one character: a letter that follows a letter is
      lower-cased, any other letter is upper-cased, other characters are kept. */
  function TitleChar(c: char, afterLetter: bool): (d: char)
    ensures LowerChar(d) == LowerChar(c)
    ensures IsLetter(c) ==> (IsUpper(d) <==> !afterLetter) && (IsLower(d) <==> afterLetter)
    ensures !IsLetter(c) ==> d == c
  {
    if !IsLetter(c) then c else if afterLetter then LowerChar(c) else UpperChar(c)
  }

  function TitleFrom(s: string, afterLetter: bool): (r: string)
    ensures |r| == |s|
  {
    if s == [] then [] else [TitleChar(s[0], afterLetter)] + TitleFrom(s[1..], IsLetter(s[0]))
  }

  lemma {:induction false} TitleFromAt(s: string, afterLetter: bool, i: nat)
    requires i < |s|
    ensures TitleFrom(s, afterLetter)[i] == TitleChar(s[i], if i == 0 then afterLetter else IsLetter(s[i - 1]))
  {
    if i > 0 {
      TitleFromAt(s[1..], IsLetter(s[0]), i - 1);
    }
  }

  /** `str.title()`: each character is cased by whether the character before it is a
      letter, so an apostrophe starts a new word ("euler's" becomes "Euler'S"). */
  function Title(s: string): (r: string)
    ensures |r| == |s|
    ensures forall i :: 0 <= i < |s| ==> r[i] == TitleChar(s[i], i > 0 && IsLetter(s[i - 1]))
  {
    var r := TitleFrom(s, false);
    forall i | 0 <= i < |s|
      ensures r[i] == TitleChar(s[i], i > 0 && IsLetter(s[i - 1]))
    {
      TitleFromAt(s, false, i);
    }
    r
  }

  /** A character that starts a word (the first, or one after a non-letter such
      as the apostrophe) is upper-cased. */
  lemma TitleStartsWord(s: string, i: nat)
    requires i < |s| && (i == 0 || !IsLetter(s[i - 1]))
    ensures Title(s)[i] == UpperChar(s[i])
  {
  }

  /** Title-casing changes only the case of letters. */
  lemma TitleOnlyChangesCase(s: string)
    ensures Lower(Title(s)) == Lower(s)
  {
    var t := Title(s);
    forall i | 0 <= i < |s|
      ensures Lower(t)[i] == Lower(s)[i]
    {
      var b := i > 0 && IsLetter(s[i - 1]);
      assert t[i] == TitleChar(s[i], b);
    }
  }

  /** needle occurs in hay starting at index i. */
  predicate OccursAt(needle: string, hay: string, i: nat)
  {
    i + |needle| <= |hay| && hay[i..i + |needle|] == needle
  }

  /** Python's `needle in hay` for strings: needle occurs at some position of hay. */
  predicate IsSubstring(needle: string, hay: string)
    ensures IsSubstring(needle, hay) ==> |needle| <= |hay|
  {
    exists i :: 0 <= i <= |hay| - |needle| && OccursAt(needle, hay, i)
  }

  /** The empty string is a substring of every string. */
  lemma EmptyIsSubstring(hay: string)
    ensures IsSubstring([], hay)
  {
    assert OccursAt([], hay, 0);
  }

  /** A needle holding a character the hay lacks is not a substring of it. */
  lemma MissingCharNotSubstring(needle: string, hay: string, c: char)
    requires c in needle && c !in hay
    ensures !IsSubstring(needle, hay)
  {
  }

  /** Occurrences in a suffix of hay are occurrences in hay, shifted by where the suffix starts. */
  lemma OccursInSuffix(needle: string, hay: string, k: nat, j: nat)
    requires k <= |hay|
    ensures OccursAt(needle, hay[k..], j) <==> OccursAt(needle, hay, j + k)
  {
    if j + k + |needle| <= |hay| {
      assert hay[k..][j..j + |needle|] == hay[j + k..j + k + |needle|];
    }
  }

  /** An occurrence that ends inside a is the same in a and in a + b. */
  lemma OccursInPrefix(needle: string, a: string, b: string, i: nat)
    requires i + |needle| <= |a|
    ensures OccursAt(needle, a, i) <==> OccursAt(needle, a + b, i)
  {
    assert (a + b)[i..i + |needle|] == a[i..i + |needle|];
  }

  /** An occurrence of needle in a + b lies inside a, or inside the last |needle| - 1
      characters of a followed by b; so a search over a joined string can be split. */
  lemma SubstringOfJoin(needle: string, a: string, b: string)
    requires |needle| >= 1 && |a| >= |needle| - 1
    ensures IsSubstring(needle, a + b) <==>
              IsSubstring(needle, a) || IsSubstring(needle, a[|a| - (|needle| - 1)..] + b)
  {
    var w0 := |a| - (|needle| - 1);
    var h := a + b;
    var tail := a[w0..] + b;
    assert tail == h[w0..];
    if IsSubstring(needle, h) {
      var i :| 0 <= i <= |h| - |needle| && OccursAt(needle, h, i);
      if i + |needle| <= |a| {
        OccursInPrefix(needle, a, b, i);
      } else {
        OccursInSuffix(needle, h, w0, i - w0);
      }
    }
    if IsSubstring(needle, a) {
      var i :| 0 <= i <= |a| - |needle| && OccursAt(needle, a, i);
      OccursInPrefix(needle, a, b, i);
    }
    if IsSubstring(needle, tail) {
      var j :| 0 <= j <= |tail| - |needle| && OccursAt(needle, tail, j);
      OccursInSuffix(needle, h, w0, j);
    }
  }
}
