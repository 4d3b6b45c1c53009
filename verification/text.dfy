/** The Python string operations the core relies on: `str.strip(chars)`,
    `str.strip()`, `sep.join(items)` and `str.replace(pattern, "")`. */
module Text {

  /** The characters `str.isspace` accepts, which a bare `str.strip()` removes. */
  const Whitespace: set<char> := {
    ' ', '\t', '\n', '\r', '\U{0B}', '\U{0C}', '\U{1C}', '\U{1D}', '\U{1E}', '\U{1F}',
    '\U{85}', '\U{A0}', '\U{1680}', '\U{2000}', '\U{2001}', '\U{2002}', '\U{2003}',
    '\U{2004}', '\U{2005}', '\U{2006}', '\U{2007}', '\U{2008}', '\U{2009}', '\U{200A}',
    '\U{2028}', '\U{2029}', '\U{202F}', '\U{205F}', '\U{3000}'
  }

  // ---------------------------------------------------------------------------
  // Stripping

  /** Drops the leading characters that belong to `chars`. */
  function TrimStart(s: string, chars: set<char>): (r: string)
    ensures |r| <= |s| && r == s[|s| - |r|..]
    ensures forall k :: 0 <= k < |s| - |r| ==> s[k] in chars
    ensures r == [] || r[0] !in chars
  {
    if |s| > 0 && s[0] in chars then TrimStart(s[1..], chars) else s
  }

  /** Drops the trailing characters that belong to `chars`. */
  function TrimEnd(s: string, chars: set<char>): (r: string)
    ensures |r| <= |s| && r == s[..|r|]
    ensures forall k :: |r| <= k < |s| ==> s[k] in chars
    ensures r == [] || r[|r| - 1] !in chars
  {
    if |s| > 0 && s[|s| - 1] in chars then TrimEnd(s[..|s| - 1], chars) else s
  }

  /** How many characters `Strip` removes from the front. */
  function StripOffset(s: string, chars: set<char>): (n: nat)
    ensures n <= |s|
  {
    |s| - |TrimStart(s, chars)|
  }

  /** `s.strip(chars)`: the longest slice of `s` that neither starts nor ends
      with a character of `chars`, obtained by removing only such characters. */
  function Strip(s: string, chars: set<char>): (r: string)
    ensures StripOffset(s, chars) + |r| <= |s|
    ensures r == s[StripOffset(s, chars)..StripOffset(s, chars) + |r|]
    ensures forall k :: 0 <= k < StripOffset(s, chars) ==> s[k] in chars
    ensures forall k :: StripOffset(s, chars) + |r| <= k < |s| ==> s[k] in chars
    ensures r == [] || (r[0] !in chars && r[|r| - 1] !in chars)
    ensures r == [] <==> forall k :: 0 <= k < |s| ==> s[k] in chars
  {
    var t := TrimStart(s, chars);
    var r := TrimEnd(t, chars);
    r
  }

  /** A string whose ends are outside `chars` is its own strip. */
  lemma StripUnchanged(s: string, chars: set<char>)
    requires s == [] || (s[0] !in chars && s[|s| - 1] !in chars)
    ensures Strip(s, chars) == s
  {
    assert TrimStart(s, chars) == s;
    assert TrimEnd(s, chars) == s;
  }

  /** Stripping a second time changes nothing. */
  lemma StripIdempotent(s: string, chars: set<char>)
    ensures Strip(Strip(s, chars), chars) == Strip(s, chars)
  {
    StripUnchanged(Strip(s, chars), chars);
  }

  // ---------------------------------------------------------------------------
  // Joining

  /** Total length of the pieces. */
  function TotalLength(xs: seq<string>): nat
  {
    if |xs| == 0 then 0 else |xs[0]| + TotalLength(xs[1..])
  }

  /** `sep.join(xs)`: the pieces in order with `sep` between neighbours. */
  function Join(sep: string, xs: seq<string>): (r: string)
    ensures |xs| == 0 ==> r == []
    ensures |xs| > 0 ==> |r| == TotalLength(xs) + |sep| * (|xs| - 1)
    ensures |xs| > 0 ==> r[..|xs[0]|] == xs[0]
  {
    if |xs| == 0 then []
    else if |xs| == 1 then xs[0]
    else xs[0] + sep + Join(sep, xs[1..])
  }

  /** Python builds a join left to right: appending one more piece appends
      the separator and that piece to the join of the earlier pieces. */
  lemma {:induction false} JoinSnoc(sep: string, xs: seq<string>, x: string)
    requires |xs| > 0
    ensures Join(sep, xs + [x]) == Join(sep, xs) + sep + x
  {
    if |xs| == 1 {
      assert xs + [x] == [xs[0], x];
      assert (xs + [x])[1..] == [x];
    } else {
      assert (xs + [x])[1..] == xs[1..] + [x];
      JoinSnoc(sep, xs[1..], x);
    }
  }

  /** With a non-empty separator the join is empty exactly when there is no
      piece, or one empty piece. */
  lemma JoinEmptyIff(sep: string, xs: seq<string>)
    requires sep != []
    ensures Join(sep, xs) == [] <==> |xs| == 0 || (|xs| == 1 && xs[0] == [])
  {
    if |xs| == 1 {
      assert TotalLength(xs) == |xs[0]| + TotalLength(xs[1..]);
    }
  }

  // ---------------------------------------------------------------------------
  // Removing a pattern

  /** `s.replace(p, "")`: every occurrence of `p`, found left to right without
      overlap, is deleted. An empty pattern leaves `s` as it is. */
  function RemoveAll(s: string, p: string): (r: string)
    ensures |r| <= |s|
    ensures multiset(r) <= multiset(s)
    decreases |s|
  {
    if |p| == 0 || |s| < |p| then s
    else if s[..|p|] == p then
      assert s == s[..|p|] + s[|p|..];
      RemoveAll(s[|p|..], p)
    else
      assert s == [s[0]] + s[1..];
      [s[0]] + RemoveAll(s[1..], p)
  }

  /** `p` occurs in `s` at position `i`. */
  predicate OccursAt(s: string, p: string, i: int)
  {
    0 <= i && i + |p| <= |s| && s[i..i + |p|] == p
  }

  /** `p in s` for strings. */
  predicate Contains(s: string, p: string)
  {
    exists i :: 0 <= i <= |s| - |p| && OccursAt(s, p, i)
  }

  /** Removing a pattern that does not occur returns the input unchanged. */
  lemma {:induction false} RemoveAbsent(s: string, p: string)
    requires !Contains(s, p)
    ensures RemoveAll(s, p) == s
    decreases |s|
  {
    if |p| == 0 || |s| < |p| {
    } else {
      assert !OccursAt(s, p, 0);
      assert s[..|p|] != p;
      assert !Contains(s[1..], p) by {
        forall i | 0 <= i <= |s[1..]| - |p|
          ensures !OccursAt(s[1..], p, i)
        {
          assert s[1..][i..i + |p|] == s[i + 1..i + 1 + |p|];
          assert !OccursAt(s, p, i + 1);
        }
      }
      RemoveAbsent(s[1..], p);
      assert RemoveAll(s, p) == [s[0]] + RemoveAll(s[1..], p);
      assert s == [s[0]] + s[1..];
    }
  }

  /** Removing the one-character pattern `[c]` removes every `c`. */
  lemma {:induction false} RemoveCharAll(s: string, c: char)
    ensures c !in RemoveAll(s, [c])
    decreases |s|
  {
    if |s| >= 1 {
      RemoveCharAll(s[1..], c);
    }
  }

  /** `s` with every character of `d` deleted, everything else kept in order. */
  function Without(s: string, d: set<char>): (r: string)
    ensures forall k :: 0 <= k < |r| ==> r[k] !in d
    ensures |r| <= |s|
  {
    if |s| == 0 then []
    else (if s[0] in d then [] else [s[0]]) + Without(s[1..], d)
  }

  lemma {:induction false} WithoutAppend(a: string, b: string, d: set<char>)
    ensures Without(a + b, d) == Without(a, d) + Without(b, d)
    decreases |a|
  {
    if |a| == 0 {
      assert a + b == b;
    } else {
      assert (a + b)[1..] == a[1..] + b;
      WithoutAppend(a[1..], b, d);
    }
  }

  lemma {:induction false} WithoutAll(s: string, d: set<char>)
    requires forall k :: 0 <= k < |s| ==> s[k] in d
    ensures Without(s, d) == []
    decreases |s|
  {
    if |s| > 0 {
      WithoutAll(s[1..], d);
    }
  }

  /** Removing a pattern made only of characters of `d` leaves every
      character outside `d` in place and in order. */
  lemma {:induction false} RemoveKeepsOthers(s: string, p: string, d: set<char>)
    requires forall k :: 0 <= k < |p| ==> p[k] in d
    ensures Without(RemoveAll(s, p), d) == Without(s, d)
    decreases |s|
  {
    if |p| == 0 || |s| < |p| {
    } else if s[..|p|] == p {
      RemoveKeepsOthers(s[|p|..], p, d);
      assert s == p + s[|p|..];
      WithoutAppend(p, s[|p|..], d);
      WithoutAll(p, d);
    } else {
      RemoveKeepsOthers(s[1..], p, d);
      WithoutAppend([s[0]], RemoveAll(s[1..], p), d);
      assert s == [s[0]] + s[1..];
      WithoutAppend([s[0]], s[1..], d);
    }
  }

  /** Removing a character's single-character pattern equals filtering it out. */
  lemma {:induction false} RemoveCharIsWithout(s: string, c: char)
    ensures RemoveAll(s, [c]) == Without(s, {c})
    decreases |s|
  {
    if |s| >= 1 {
      RemoveCharIsWithout(s[1..], c);
      assert s[..1][0] == s[0];
      assert Without(s, {c}) == (if s[0] == c then [] else [s[0]]) + Without(s[1..], {c});
    }
  }

  // ---------------------------------------------------------------------------
  // Removing a run pattern `ccc`

  /** No three consecutive `c` characters. */
  predicate NoTriple(s: string, c: char)
  {
    forall i :: 0 <= i < |s| - 2 ==> !(s[i] == c && s[i + 1] == c && s[i + 2] == c)
  }

  /** A string not starting with `c` keeps its first character when `ccc` is removed. */
  lemma RemoveTripleKeepsHead(s: string, c: char)
    requires |s| > 0 && s[0] != c
    ensures RemoveAll(s, [c, c, c]) == [s[0]] + RemoveAll(s[1..], [c, c, c])
  {
  }

  lemma NoTripleCons(x: char, t: string, c: char)
    requires NoTriple(t, c)
    requires !(x == c && |t| >= 2 && t[0] == c && t[1] == c)
    ensures NoTriple([x] + t, c)
  {
    var s := [x] + t;
    forall i | 0 <= i < |s| - 2
      ensures !(s[i] == c && s[i + 1] == c && s[i + 2] == c)
    {
      if i > 0 {
        assert s[i] == t[i - 1] && s[i + 1] == t[i] && s[i + 2] == t[i + 1];
      }
    }
  }

  /** After `s.replace(ccc, "")` no run of three `c` remains: deleting an
      occurrence never glues a new one together, because the scan always
      takes the leftmost occurrence. */
  lemma {:induction false} RemoveTripleLeavesNone(s: string, c: char)
    ensures NoTriple(RemoveAll(s, [c, c, c]), c)
    decreases |s|
  {
    var p := [c, c, c];
    if |s| < 3 {
    } else if s[..3] == p {
      RemoveTripleLeavesNone(s[3..], c);
    } else {
      var t := RemoveAll(s[1..], p);
      assert RemoveAll(s, p) == [s[0]] + t;
      RemoveTripleLeavesNone(s[1..], c);
      if s[0] == c {
        if s[1] != c {
          RemoveTripleKeepsHead(s[1..], c);
          assert t[0] == s[1];
        } else {
          assert s[2] != c;
          if |s| > 3 {
            assert s[1..][..3][1] == s[2];
            assert t == [c] + RemoveAll(s[2..], p);
            RemoveTripleKeepsHead(s[2..], c);
          }
          assert t[1] == s[2];
        }
      }
      NoTripleCons(s[0], t, c);
    }
  }

  /** A string with no run of three `c` does not contain `ccc`. */
  lemma NoTripleNotContains(s: string, c: char)
    requires NoTriple(s, c)
    ensures !Contains(s, [c, c, c])
  {
    forall i | 0 <= i <= |s| - 3
      ensures !OccursAt(s, [c, c, c], i)
    {
      assert s[i..i + 3][0] == s[i] && s[i..i + 3][1] == s[i + 1] && s[i..i + 3][2] == s[i + 2];
    }
  }
}
