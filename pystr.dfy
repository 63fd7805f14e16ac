/** The Python string operations the devotional scripts rely on, stated over
    Dafny strings: `str.strip`, the `in` operator, `str.replace`,
    `str.count`, `str.split` and `str.join`. */
module PyStr {

  /** Python's `str.isspace()`: exactly the characters that `str.strip()`
      with no argument removes from either end of a string. */
  predicate IsWhitespace(c: char)
  {
    || ('\t' <= c <= '\r')
    || ('\U{1C}' <= c <= ' ')
    || c == '\U{85}' || c == '\U{A0}' || c == '\U{1680}'
    || ('\U{2000}' <= c <= '\U{200A}')
    || c == '\U{2028}' || c == '\U{2029}' || c == '\U{202F}' || c == '\U{205F}' || c == '\U{3000}'
  }

  /** Every character of `s` is whitespace (true of the empty string). */
  predicate IsBlank(s: string)
  {
    forall i :: 0 <= i < |s| ==> IsWhitespace(s[i])
  }

  lemma BlankAppend(a: string, b: string)
    requires IsBlank(a) && IsBlank(b)
    ensures IsBlank(a + b)
  {
  }

  /** How many whitespace characters `strip()` removes from the front. */
  function LeadingWhitespace(s: string): (n: nat)
    ensures n <= |s|
    decreases |s|
  {
    if s != [] && IsWhitespace(s[0]) then LeadingWhitespace(s[1..]) + 1 else 0
  }

  /** The front run is all whitespace and stops at the first other character. */
  lemma {:induction false} LeadingWhitespaceRun(s: string)
    ensures IsBlank(s[..LeadingWhitespace(s)])
    ensures LeadingWhitespace(s) < |s| ==> !IsWhitespace(s[LeadingWhitespace(s)])
    decreases |s|
  {
    if s != [] && IsWhitespace(s[0]) {
      var m := LeadingWhitespace(s[1..]);
      LeadingWhitespaceRun(s[1..]);
      assert s[..m + 1] == [s[0]] + s[1..][..m];
    }
  }

  /** How many whitespace characters `strip()` removes from the back. */
  function TrailingWhitespace(s: string): (n: nat)
    ensures n <= |s|
    decreases |s|
  {
    if s != [] && IsWhitespace(s[|s| - 1]) then TrailingWhitespace(s[..|s| - 1]) + 1 else 0
  }

  /** The back run is all whitespace and stops at the last other character. */
  lemma {:induction false} TrailingWhitespaceRun(s: string)
    ensures forall i :: |s| - TrailingWhitespace(s) <= i < |s| ==> IsWhitespace(s[i])
    ensures TrailingWhitespace(s) < |s| ==> !IsWhitespace(s[|s| - TrailingWhitespace(s) - 1])
    decreases |s|
  {
    if s != [] && IsWhitespace(s[|s| - 1]) {
      TrailingWhitespaceRun(s[..|s| - 1]);
    }
  }

  /** `s.strip()`: the part of `s` between its leading and its trailing
      whitespace. */
  function Strip(s: string): (r: string)
    ensures |r| <= |s|
  {
    var t := s[LeadingWhitespace(s)..];
    t[..|t| - TrailingWhitespace(t)]
  }

  /** The strip of `s` is the slice right after its leading whitespace. */
  lemma StripSlice(s: string)
    ensures LeadingWhitespace(s) + |Strip(s)| <= |s|
    ensures Strip(s) == s[LeadingWhitespace(s)..LeadingWhitespace(s) + |Strip(s)|]
  {
  }

  /** Only whitespace is cut off at either end. */
  lemma StripCutsBlank(s: string)
    ensures IsBlank(s[..LeadingWhitespace(s)])
    ensures IsBlank(s[LeadingWhitespace(s) + |Strip(s)|..])
  {
    var a := LeadingWhitespace(s);
    var t := s[a..];
    var n := |Strip(s)|;
    LeadingWhitespaceRun(s);
    TrailingWhitespaceRun(t);
    assert s[a + n..] == t[n..];
    forall j | 0 <= j < |t| - n
      ensures IsWhitespace(t[n..][j])
    {
      assert t[n..][j] == t[n + j];
    }
  }

  /** A non-empty strip neither starts nor ends with whitespace. */
  lemma StripEnds(s: string)
    ensures Strip(s) == [] || (!IsWhitespace(Strip(s)[0]) && !IsWhitespace(Strip(s)[|Strip(s)| - 1]))
  {
    var a := LeadingWhitespace(s);
    var t := s[a..];
    var r := Strip(s);
    if r != [] {
      LeadingWhitespaceRun(s);
      TrailingWhitespaceRun(t);
      assert r[0] == s[a];
      assert r[|r| - 1] == t[|t| - TrailingWhitespace(t) - 1];
    }
  }

  /** The strip is empty exactly when `s` is all whitespace. */
  lemma StripEmpty(s: string)
    ensures Strip(s) == [] <==> IsBlank(s)
  {
    var a := LeadingWhitespace(s);
    var t := s[a..];
    if Strip(s) == [] {
      LeadingWhitespaceRun(s);
      TrailingWhitespaceRun(t);
      assert IsBlank(t);
      assert s == s[..a] + t;
      BlankAppend(s[..a], t);
    } else {
      StripEnds(s);
      StripSlice(s);
      assert Strip(s)[0] == s[a];
    }
  }

  /** Everything `strip()` promises, in one place. */
  lemma StripFacts(s: string)
    ensures var a, r := LeadingWhitespace(s), Strip(s);
      && a + |r| <= |s|
      && r == s[a..a + |r|]
      && IsBlank(s[..a]) && IsBlank(s[a + |r|..])
      && (r == [] || (!IsWhitespace(r[0]) && !IsWhitespace(r[|r| - 1])))
      && (r == [] <==> IsBlank(s))
  {
    StripSlice(s);
    StripCutsBlank(s);
    StripEnds(s);
    StripEmpty(s);
  }

  /** `s` is its strip with whitespace on either side. */
  lemma StripAround(s: string) returns (lead: string, trail: string)
    ensures IsBlank(lead) && IsBlank(trail)
    ensures s == lead + Strip(s) + trail
  {
    StripFacts(s);
    var n := LeadingWhitespace(s);
    lead, trail := s[..n], s[n + |Strip(s)|..];
  }

  /** Stripping twice is stripping once. */
  lemma StripIdempotent(s: string)
    ensures Strip(Strip(s)) == Strip(s)
  {
    StripFacts(s);
    StripUnchanged(Strip(s));
  }

  /** A string with no whitespace at either end is its own strip. */
  lemma StripUnchanged(s: string)
    requires s == [] || (!IsWhitespace(s[0]) && !IsWhitespace(s[|s| - 1]))
    ensures Strip(s) == s
  {
    assert LeadingWhitespace(s) == 0;
    assert TrailingWhitespace(s) == 0;
  }

  /** The non-whitespace characters of `s`, in order. */
  function RemoveWhitespace(s: string): (r: string)
    ensures |r| <= |s|
    ensures forall i :: 0 <= i < |r| ==> !IsWhitespace(r[i])
  {
    if s == [] then []
    else (if IsWhitespace(s[0]) then [] else [s[0]]) + RemoveWhitespace(s[1..])
  }

  lemma {:induction false} RemoveWhitespaceAppend(a: string, b: string)
    ensures RemoveWhitespace(a + b) == RemoveWhitespace(a) + RemoveWhitespace(b)
    decreases |a|
  {
    if a == [] {
      assert a + b == b;
    } else {
      assert (a + b)[1..] == a[1..] + b;
      RemoveWhitespaceAppend(a[1..], b);
    }
  }

  lemma {:induction false} RemoveWhitespaceBlank(s: string)
    ensures IsBlank(s) <==> RemoveWhitespace(s) == []
    decreases |s|
  {
    if s != [] {
      RemoveWhitespaceBlank(s[1..]);
      if IsBlank(s[1..]) && IsWhitespace(s[0]) {
        assert IsBlank(s);
      }
    }
  }

  /** `strip()` loses whitespace only. */
  lemma RemoveWhitespaceStrip(s: string)
    ensures RemoveWhitespace(Strip(s)) == RemoveWhitespace(s)
  {
    StripFacts(s);
    var n := LeadingWhitespace(s);
    var r := Strip(s);
    assert s == s[..n] + r + s[n + |r|..];
    RemoveWhitespaceAppend(s[..n], r);
    RemoveWhitespaceAppend(s[..n] + r, s[n + |r|..]);
    RemoveWhitespaceBlank(s[..n]);
    RemoveWhitespaceBlank(s[n + |r|..]);
  }

  /** `s.startswith(p)` */
  predicate StartsWith(s: string, p: string)
  {
    |p| <= |s| && s[..|p|] == p
  }

  /** Python's `p in s`, scanning `s` from the left. */
  predicate Contains(s: string, p: string)
    decreases |s|
  {
    StartsWith(s, p) || (s != [] && Contains(s[1..], p))
  }

  /** `p` occurs in `s` starting at index `i`. */
  predicate OccursAt(s: string, p: string, i: int)
  {
    0 <= i && i + |p| <= |s| && s[i..i + |p|] == p
  }

  /** Every `p in s` has an index where `p` occurs ... */
  lemma {:induction false} OccurrenceOf(s: string, p: string) returns (i: nat)
    requires Contains(s, p)
    ensures OccursAt(s, p, i)
    decreases |s|
  {
    if StartsWith(s, p) {
      i := 0;
    } else {
      var j := OccurrenceOf(s[1..], p);
      assert s[1..][j..j + |p|] == s[j + 1..j + 1 + |p|];
      i := j + 1;
    }
  }

  /** ... and every occurrence makes `p in s` true. */
  lemma {:induction false} OccursAtContains(s: string, p: string, i: int)
    requires OccursAt(s, p, i)
    ensures Contains(s, p)
    decreases |s|
  {
    if i > 0 {
      assert s[1..][i - 1..i - 1 + |p|] == s[i..i + |p|];
      OccursAtContains(s[1..], p, i - 1);
    }
  }

  /** A string containing `t` contains everything `t` contains. */
  lemma ContainsTransitive(s: string, t: string, p: string)
    requires Contains(s, t) && Contains(t, p)
    ensures Contains(s, p)
  {
    var i := OccurrenceOf(s, t);
    var j := OccurrenceOf(t, p);
    var w := s[i..i + |t|];
    assert w == t;
    forall k | 0 <= k < |p|
      ensures s[i + j..i + j + |p|][k] == p[k]
    {
      assert p[k] == t[j + k] == w[j + k] == s[i + j + k];
    }
    assert s[i + j..i + j + |p|] == p;
    OccursAtContains(s, p, i + j);
  }

  /** A string contains each of its infixes. */
  lemma ContainsInfix(a: string, p: string, b: string)
    ensures Contains(a + p + b, p)
  {
    assert (a + p + b)[|a|..|a| + |p|] == p;
    OccursAtContains(a + p + b, p, |a|);
  }

  /** Stripping cannot bring in an infix the string did not have. */
  lemma StripKeepsAbsence(s: string, p: string)
    requires !Contains(s, p)
    ensures !Contains(Strip(s), p)
  {
    var lead, trail := StripAround(s);
    ContainsInfix(lead, Strip(s), trail);
    if Contains(Strip(s), p) {
      ContainsTransitive(s, Strip(s), p);
    }
  }

  /** `s.count(p)`: the occurrences `s.replace(p, ...)` replaces, that is
      the non-overlapping ones found from the left. */
  function Count(s: string, p: string): nat
    requires p != []
    decreases |s|
  {
    if s == [] then 0
    else if StartsWith(s, p) then 1 + Count(s[|p|..], p)
    else Count(s[1..], p)
  }

  /** `s.replace(p, q)`: scanning from the left, every occurrence of `p`
      that does not overlap an earlier replaced one becomes `q`. */
  function Replace(s: string, p: string, q: string): string
    requires p != []
    decreases |s|
  {
    if s == [] then []
    else if StartsWith(s, p) then q + Replace(s[|p|..], p, q)
    else [s[0]] + Replace(s[1..], p, q)
  }

  /** The left-to-right scan finds an occurrence exactly when there is one. */
  lemma {:induction false} CountPositive(s: string, p: string)
    requires p != []
    ensures Count(s, p) > 0 <==> Contains(s, p)
    decreases |s|
  {
    if s != [] && !StartsWith(s, p) {
      CountPositive(s[1..], p);
    }
  }

  /** Each replacement changes the length by `|q| - |p|`, as Python's own
      `len(s.replace(p, q)) == len(s) + s.count(p) * (len(q) - len(p))`. */
  lemma {:induction false} ReplaceLength(s: string, p: string, q: string)
    requires p != []
    ensures |Replace(s, p, q)| == |s| + Count(s, p) * (|q| - |p|)
    decreases |s|
  {
    if s == [] {
    } else if StartsWith(s, p) {
      var rest := s[|p|..];
      ReplaceLength(rest, p, q);
      Distribute(Count(rest, p), |q| - |p|);
    } else {
      ReplaceLength(s[1..], p, q);
    }
  }

  lemma Distribute(c: int, d: int)
    ensures (1 + c) * d == d + c * d
  {
  }

  /** Replacing a string that does not occur changes nothing. */
  lemma {:induction false} ReplaceAbsent(s: string, p: string, q: string)
    requires p != [] && !Contains(s, p)
    ensures Replace(s, p, q) == s
    decreases |s|
  {
    if s != [] {
      ReplaceAbsent(s[1..], p, q);
      assert s == [s[0]] + s[1..];
    }
  }

  /** A prefix without the first character of `p` is copied unchanged. */
  lemma {:induction false} ReplaceSkip(a: string, s: string, p: string, q: string)
    requires p != [] && p[0] !in a
    ensures Replace(a + s, p, q) == a + Replace(s, p, q)
    decreases |a|
  {
    if a == [] {
      assert a + s == s;
    } else {
      assert (a + s)[0] == a[0];
      assert (a + s)[1..] == a[1..] + s;
      ReplaceSkip(a[1..], s, p, q);
    }
  }

  /** An occurrence of `p` at the front is replaced by `q`. */
  lemma ReplaceAt(p: string, s: string, q: string)
    requires p != []
    ensures Replace(p + s, p, q) == q + Replace(s, p, q)
  {
    assert (p + s)[..|p|] == p;
    assert (p + s)[|p|..] == s;
  }

  /** A string without the first character of `p` is left unchanged. */
  lemma ReplaceWithout(s: string, p: string, q: string)
    requires p != [] && p[0] !in s
    ensures Replace(s, p, q) == s
  {
    ReplaceSkip(s, [], p, q);
    assert s + [] == s;
  }

  /** A string that does not start with `p`, and holds `p`'s first
      character nowhere else, is left unchanged. */
  lemma ReplaceNotAtFront(s: string, p: string, q: string)
    requires p != [] && s != [] && !StartsWith(s, p) && p[0] !in s[1..]
    ensures Replace(s, p, q) == s
  {
    ReplaceWithout(s[1..], p, q);
    assert s == [s[0]] + s[1..];
  }

  /** Deleting the one occurrence of `p` between two pieces that lack its
      first character joins the pieces. */
  lemma DeleteBetween(a: string, p: string, t: string)
    requires p != [] && p[0] !in a && p[0] !in t
    ensures Replace(a + p + t, p, "") == a + t
  {
    var pt := p + t;
    assert a + p + t == a + pt;
    ReplaceSkip(a, pt, p, "");
    ReplaceAt(p, t, "");
    ReplaceWithout(t, p, "");
    assert Replace(pt, p, "") == t;
  }

  /** Deleting `p` from `p` itself leaves nothing. */
  lemma DeleteWhole(p: string)
    requires p != []
    ensures Replace(p, p, "") == ""
  {
    ReplaceAt(p, [], "");
    assert p + [] == p;
  }

  /** Deleting `p` (replacing it by "") shortens the string exactly when
      `p` occurs in it. */
  lemma DeleteShortens(s: string, p: string)
    requires p != []
    ensures |Replace(s, p, "")| <= |s|
    ensures |Replace(s, p, "")| < |s| <==> Contains(s, p)
  {
    ReplaceLength(s, p, "");
    CountPositive(s, p);
    assert Count(s, p) * (0 - |p|) == -(Count(s, p) * |p|);
    if Count(s, p) > 0 {
      assert Count(s, p) * |p| >= |p|;
    }
  }

  /** `s.split(sep)` for a one-character separator: the pieces between
      separators, including empty ones; never an empty list. */
  function Split(s: string, sep: char): (parts: seq<string>)
    ensures |parts| >= 1
    ensures forall i :: 0 <= i < |parts| ==> sep !in parts[i]
    decreases |s|
  {
    if s == [] then [[]]
    else if s[0] == sep then [[]] + Split(s[1..], sep)
    else
      var rest := Split(s[1..], sep);
      [[s[0]] + rest[0]] + rest[1..]
  }

  /** `sep.join(parts)` for a one-character separator. */
  function Join(parts: seq<string>, sep: char): string
    decreases |parts|
  {
    if |parts| == 0 then []
    else if |parts| == 1 then parts[0]
    else parts[0] + [sep] + Join(parts[1..], sep)
  }

  /** Joining the pieces of a split gives back the original text. */
  lemma {:induction false} JoinSplit(s: string, sep: char)
    ensures Join(Split(s, sep), sep) == s
    decreases |s|
  {
    if s == [] {
    } else if s[0] == sep {
      JoinSplit(s[1..], sep);
      assert s == [] + [sep] + s[1..];
    } else {
      JoinSplit(s[1..], sep);
      var rest := Split(s[1..], sep);
      if |rest| == 1 {
        assert s == [s[0]] + rest[0];
      } else {
        assert Join(rest, sep) == rest[0] + [sep] + Join(rest[1..], sep);
        assert s == ([s[0]] + rest[0]) + [sep] + Join(rest[1..], sep);
      }
    }
  }

  /** Splitting text that begins with a separator-free piece `w`. */
  lemma {:induction false} SplitPiece(w: string, t: string, sep: char)
    requires sep !in w
    ensures Split(w, sep) == [w]
    ensures Split(w + [sep] + t, sep) == [w] + Split(t, sep)
    decreases |w|
  {
    if w != [] {
      SplitPiece(w[1..], t, sep);
      assert (w + [sep] + t)[1..] == w[1..] + [sep] + t;
      assert [w[0]] + w[1..] == w;
    } else {
      assert w + [sep] + t == [sep] + t;
    }
  }

  /** Splitting a join of separator-free pieces gives back the pieces. */
  lemma {:induction false} SplitJoin(parts: seq<string>, sep: char)
    requires |parts| >= 1
    requires forall i :: 0 <= i < |parts| ==> sep !in parts[i]
    ensures Split(Join(parts, sep), sep) == parts
    decreases |parts|
  {
    if |parts| == 1 {
      SplitPiece(parts[0], [], sep);
    } else {
      SplitJoin(parts[1..], sep);
      SplitPiece(parts[0], Join(parts[1..], sep), sep);
      assert parts == [parts[0]] + parts[1..];
    }
  }

  /** Every piece of a split is an infix of the text, the first a prefix. */
  lemma {:induction false} SplitPartsInside(s: string, sep: char)
    ensures StartsWith(s, Split(s, sep)[0])
    ensures forall i :: 0 <= i < |Split(s, sep)| ==> Contains(s, Split(s, sep)[i])
    decreases |s|
  {
    var parts := Split(s, sep);
    if s == [] {
      assert StartsWith(s, parts[0]);
    } else {
      SplitPartsInside(s[1..], sep);
      var rest := Split(s[1..], sep);
      assert s == [s[0]] + s[1..];
      if s[0] == sep {
        assert parts == [[]] + rest;
        assert StartsWith(s, []);
        forall i | 0 <= i < |parts|
          ensures Contains(s, parts[i])
        {
          if i > 0 {
            assert parts[i] == rest[i - 1];
          }
        }
      } else {
        assert parts == [[s[0]] + rest[0]] + rest[1..];
        assert s[..|parts[0]|] == [s[0]] + s[1..][..|rest[0]|];
        forall i | 0 <= i < |parts|
          ensures Contains(s, parts[i])
        {
          if i > 0 {
            assert parts[i] == rest[i];
          }
        }
      }
    }
  }
}
