/**
 * The JavaScript string built-ins the modelled code relies on, over
 * `string` (= `seq<char>`): the `\s` class, literal-pattern `replace`
 * (first occurrence) and global replace, `split` / `join` with a literal
 * separator, and the whitespace rewrites `/\s+/g -> " "`, `/\s+$/ -> ""`,
 * `/^\n+/ -> ""` and `/\n+/g -> "\n"`.
 */
module JsString {

  /** ECMAScript's `\s`: the white space and line terminator code points. */
  predicate IsSpace(c: char) {
    || c == '\t' || c == '\n' || c == '\U{000B}' || c == '\U{000C}' || c == '\r' || c == ' '
    || c == '\U{00A0}' || c == '\U{1680}' || ('\U{2000}' <= c <= '\U{200A}')
    || c == '\U{2028}' || c == '\U{2029}' || c == '\U{202F}' || c == '\U{205F}'
    || c == '\U{3000}' || c == '\U{FEFF}'
  }

  /** `s.trimStart()`, which is also `s.replace(/^\s+/, "")`: `s` without its leading whitespace. */
  function TrimStart(s: string): (r: string)
    ensures |r| <= |s|
    ensures r != [] ==> !IsSpace(r[0])
  {
    if s != [] && IsSpace(s[0]) then TrimStart(s[1..]) else s
  }

  /** `TrimStart` cuts off a prefix of whitespace characters. */
  lemma {:induction false} TrimStartSuffix(s: string)
    ensures TrimStart(s) == s[|s| - |TrimStart(s)|..]
    ensures forall i :: 0 <= i < |s| - |TrimStart(s)| ==> IsSpace(s[i])
    decreases |s|
  {
    if s != [] && IsSpace(s[0]) {
      TrimStartSuffix(s[1..]);
      assert s[1..][|s| - 1 - |TrimStart(s)|..] == s[|s| - |TrimStart(s)|..];
      forall i | 0 < i < |s| - |TrimStart(s)| ensures IsSpace(s[i]) {
        assert s[i] == s[1..][i - 1];
      }
    }
  }

  /** The characters of `s` that are not whitespace, in order. */
  function NonSpaces(s: string): string {
    if s == [] then [] else Kept(s[0]) + NonSpaces(s[1..])
  }

  /** What `NonSpaces` keeps of one character. */
  function Kept(c: char): string {
    if IsSpace(c) then [] else [c]
  }

  lemma NonSpacesCons(c: char, r: string)
    ensures NonSpaces([c] + r) == Kept(c) + NonSpaces(r)
  {
    assert ([c] + r)[1..] == r;
  }

  /** Every whitespace character is a plain space and no two whitespace characters are adjacent. */
  predicate SingleSpaced(s: string) {
    s == [] || ((IsSpace(s[0]) ==> s[0] == ' ' && (|s| == 1 || !IsSpace(s[1]))) && SingleSpaced(s[1..]))
  }

  lemma {:induction false} SingleSpacedTrimStart(s: string)
    requires SingleSpaced(s)
    ensures SingleSpaced(TrimStart(s))
    decreases |s|
  {
    if s != [] && IsSpace(s[0]) {
      SingleSpacedTrimStart(s[1..]);
    }
  }

  /** `pat` occurs in `s` (`s.search(pat) > -1` for a pattern without metacharacters). */
  predicate Contains(s: string, pat: string)
    decreases |s|
  {
    pat <= s || (s != [] && Contains(s[1..], pat))
  }

  /** Number of occurrences of `c` in `s`. */
  function Count(s: string, c: char): nat {
    if s == [] then 0 else (if s[0] == c then 1 else 0) + Count(s[1..], c)
  }

  /** Occurrences in a concatenation add up. */
  lemma {:induction false} CountAppend(a: string, b: string, c: char)
    ensures Count(a + b, c) == Count(a, c) + Count(b, c)
    decreases |a|
  {
    if a == [] {
      assert a + b == b;
    } else {
      CountAppend(a[1..], b, c);
      assert (a + b)[1..] == a[1..] + b;
    }
  }

  // ---------------------------------------------------------------------------
  // replace, split, join
  // ---------------------------------------------------------------------------

  /** `s.replace(pat, rep)` with a string pattern: only the first occurrence is replaced. */
  function ReplaceFirst(s: string, pat: string, rep: string): (r: string)
    requires pat != []
    ensures |r| >= |s| - |pat|
    decreases |s|
  {
    if |s| < |pat| then s
    else if pat <= s then rep + s[|pat|..]
    else [s[0]] + ReplaceFirst(s[1..], pat, rep)
  }

  /** Replacing the first occurrence of a character that first occurs at `i` cuts the string there. */
  lemma {:induction false} ReplaceFirstCharAt(s: string, c: char, i: nat, rep: string)
    requires i < |s| && s[i] == c
    requires forall k :: 0 <= k < i ==> s[k] != c
    ensures ReplaceFirst(s, [c], rep) == s[..i] + rep + s[i + 1..]
    decreases i
  {
    if i > 0 {
      ReplaceFirstCharAt(s[1..], c, i - 1, rep);
      TakeCons(s, i);
    }
  }

  lemma TakeCons<T>(s: seq<T>, i: nat)
    requires 0 < i <= |s|
    ensures s[..i] == [s[0]] + s[1..][..i - 1]
  {
  }

  lemma DropCons<T>(s: seq<T>, k: nat)
    requires k < |s|
    ensures s[k..] == [s[k]] + s[k + 1..]
  {
  }

  lemma PrefixThenRest<T>(p: seq<T>, s: seq<T>)
    requires p <= s
    ensures s == p + s[|p|..]
  {
  }

  /** `s.replace(/pat/g, rep)` for a literal `pat`: leftmost, non-overlapping occurrences. */
  function ReplaceAll(s: string, pat: string, rep: string): string
    requires pat != []
    decreases |s|
  {
    if |s| < |pat| then s
    else if pat <= s then rep + ReplaceAll(s[|pat|..], pat, rep)
    else [s[0]] + ReplaceAll(s[1..], pat, rep)
  }

  /** The replaced text starts where the text or the replacement starts. */
  lemma ReplaceAllHead(s: string, pat: string, rep: string)
    requires pat != [] && s != [] && rep != []
    ensures ReplaceAll(s, pat, rep) != []
    ensures ReplaceAll(s, pat, rep)[0] == s[0] || ReplaceAll(s, pat, rep)[0] == rep[0]
  {
  }

  /** `s.split(sep)` for a non-empty literal separator. */
  function Split(s: string, sep: string): (parts: seq<string>)
    requires sep != []
    ensures |parts| >= 1
    decreases |s|
  {
    if |s| < |sep| then [s]
    else if sep <= s then [[]] + Split(s[|sep|..], sep)
    else
      var rest := Split(s[1..], sep);
      [[s[0]] + rest[0]] + rest[1..]
  }

  /** `parts.join(sep)`. */
  function Join(parts: seq<string>, sep: string): string {
    if parts == [] then []
    else if |parts| == 1 then parts[0]
    else parts[0] + sep + Join(parts[1..], sep)
  }

  /** Appending a part to a join appends the separator and the part. */
  lemma {:induction false} JoinSnoc(parts: seq<string>, x: string, sep: string)
    ensures Join(parts + [x], sep) == if parts == [] then x else Join(parts, sep) + sep + x
    decreases |parts|
  {
    if |parts| > 1 {
      JoinSnoc(parts[1..], x, sep);
      assert (parts + [x])[1..] == parts[1..] + [x];
    } else if |parts| == 1 {
      assert (parts + [x])[1..] == [x];
    }
  }

  /** Without a separator, the join ends with the last part. */
  lemma JoinEmptyLast(parts: seq<string>)
    requires parts != []
    ensures Join(parts, "") == Join(parts[..|parts| - 1], "") + parts[|parts| - 1]
  {
    var init, x := parts[..|parts| - 1], parts[|parts| - 1];
    TakeLastSnoc(parts);
    JoinSnoc(init, x, "");
    AppendNothing(Join(init, ""));
  }

  lemma TakeLastSnoc<T>(s: seq<T>)
    requires s != []
    ensures s[..|s| - 1] + [s[|s| - 1]] == s
  {
  }

  lemma AppendNothing<T>(s: seq<T>)
    ensures s + [] == s
  {
  }

  /** Without a separator, the join of two lists is the concatenation of their joins. */
  lemma {:induction false} JoinEmptyAppend(a: seq<string>, b: seq<string>)
    ensures Join(a + b, "") == Join(a, "") + Join(b, "")
    decreases |b|
  {
    if b == [] {
      assert a + b == a;
    } else {
      var n := |b| - 1;
      JoinEmptyAppend(a, b[..n]);
      assert (a + b)[..|a + b| - 1] == a + b[..n];
      JoinEmptyLast(a + b);
      JoinEmptyLast(b);
    }
  }

  lemma JoinConsHead(c: char, parts: seq<string>, sep: string)
    requires parts != []
    ensures Join([[c] + parts[0]] + parts[1..], sep) == [c] + Join(parts, sep)
  {
    var ps := [[c] + parts[0]] + parts[1..];
    assert ps[1..] == parts[1..];
  }

  /** A global literal replace is the same as splitting on the pattern and joining with the replacement. */
  lemma {:induction false} ReplaceAllIsSplitJoin(s: string, pat: string, rep: string)
    requires pat != []
    ensures ReplaceAll(s, pat, rep) == Join(Split(s, pat), rep)
    decreases |s|
  {
    if |s| < |pat| {
    } else if pat <= s {
      ReplaceAllIsSplitJoin(s[|pat|..], pat, rep);
      var rest := Split(s[|pat|..], pat);
      assert ([[]] + rest)[1..] == rest;
    } else {
      ReplaceAllIsSplitJoin(s[1..], pat, rep);
      JoinConsHead(s[0], Split(s[1..], pat), rep);
    }
  }

  lemma {:induction false} ReplaceAllSameIsIdentity(s: string, pat: string)
    requires pat != []
    ensures ReplaceAll(s, pat, pat) == s
    decreases |s|
  {
    if |s| < |pat| {
    } else if pat <= s {
      ReplaceAllSameIsIdentity(s[|pat|..], pat);
      assert s == pat + s[|pat|..];
    } else {
      ReplaceAllSameIsIdentity(s[1..], pat);
      assert s == [s[0]] + s[1..];
    }
  }

  /** Joining the pieces of a split with the same separator gives back the string. */
  lemma SplitJoinRoundTrip(s: string, sep: string)
    requires sep != []
    ensures Join(Split(s, sep), sep) == s
  {
    ReplaceAllIsSplitJoin(s, sep, sep);
    ReplaceAllSameIsIdentity(s, sep);
  }

  lemma {:induction false} SplitWithoutSeparator(a: string, c: char)
    requires c !in a
    ensures Split(a, [c]) == [a]
    decreases |a|
  {
    if a != [] {
      assert a[0] in a;
      SplitWithoutSeparator(a[1..], c);
      assert [a[0]] + a[1..] == a;
    }
  }

  lemma {:induction false} SplitAtFirstSeparator(a: string, c: char, b: string)
    requires c !in a
    ensures Split(a + [c] + b, [c]) == [a] + Split(b, [c])
    decreases |a|
  {
    var s := a + [c] + b;
    if a == [] {
      assert s[1..] == b;
    } else {
      assert s[1..] == a[1..] + [c] + b;
      SplitAtFirstSeparator(a[1..], c, b);
      assert [s[0]] + a[1..] == a;
    }
  }

  /** Splitting a join on a one-character separator that no part contains gives back the parts. */
  lemma {:induction false} SplitJoinInverse(parts: seq<string>, c: char)
    requires parts != []
    requires forall k :: 0 <= k < |parts| ==> c !in parts[k]
    ensures Split(Join(parts, [c]), [c]) == parts
    decreases |parts|
  {
    if |parts| == 1 {
      SplitWithoutSeparator(parts[0], c);
    } else {
      var rest := parts[1..];
      forall k | 0 <= k < |rest| ensures c !in rest[k] {
        assert rest[k] == parts[k + 1];
      }
      SplitJoinInverse(rest, c);
      assert c !in parts[0];
      var joined := Join(rest, [c]);
      assert Join(parts, [c]) == parts[0] + [c] + joined;
      SplitAtFirstSeparator(parts[0], c, joined);
      assert [parts[0]] + rest == parts;
    }
  }

  /** Removing every `c` shortens the string by the number of occurrences of `c`. */
  lemma {:induction false} RemoveAllLength(s: string, c: char)
    ensures |ReplaceAll(s, [c], [])| == |s| - Count(s, c)
    decreases |s|
  {
    if s != [] {
      RemoveAllLength(s[1..], c);
      assert [c] <= s <==> s[0] == c;
    }
  }

  // ---------------------------------------------------------------------------
  // whitespace rewrites
  // ---------------------------------------------------------------------------

  /** `s.replace(/\s+/g, " ")`. */
  function CollapseSpaces(s: string): string
    decreases |s|
  {
    if s == [] then []
    else if IsSpace(s[0]) then " " + CollapseSpaces(TrimStart(s[1..]))
    else [s[0]] + CollapseSpaces(s[1..])
  }

  lemma {:induction false} NonSpacesAppend(a: string, b: string)
    ensures NonSpaces(a + b) == NonSpaces(a) + NonSpaces(b)
    decreases |a|
  {
    if a == [] {
      assert a + b == b;
    } else {
      NonSpacesAppend(a[1..], b);
      TailOfAppend(a, b);
    }
  }

  lemma TailOfAppend<T>(a: seq<T>, b: seq<T>)
    requires a != []
    ensures (a + b)[0] == a[0] && (a + b)[1..] == a[1..] + b
  {
  }

  lemma {:induction false} NonSpacesTrimStart(s: string)
    ensures NonSpaces(TrimStart(s)) == NonSpaces(s)
    decreases |s|
  {
    if s != [] && IsSpace(s[0]) {
      NonSpacesTrimStart(s[1..]);
    }
  }

  /** After `/\s+/g -> " "` every whitespace run is one plain space, and it keeps its place. */
  lemma {:induction false} CollapseSpacesSingleSpaced(s: string)
    ensures SingleSpaced(CollapseSpaces(s))
    ensures NonSpaces(CollapseSpaces(s)) == NonSpaces(s)
    ensures s != [] ==> CollapseSpaces(s) != [] && (IsSpace(CollapseSpaces(s)[0]) <==> IsSpace(s[0]))
    decreases |s|
  {
    if s != [] {
      if IsSpace(s[0]) {
        var rest := TrimStart(s[1..]);
        CollapseSpacesSingleSpaced(rest);
        NonSpacesTrimStart(s[1..]);
        var r := CollapseSpaces(rest);
        NonSpacesAppend(" ", r);
        assert (" " + r)[1..] == r;
      } else {
        CollapseSpacesSingleSpaced(s[1..]);
        var r := CollapseSpaces(s[1..]);
        NonSpacesAppend([s[0]], r);
        assert ([s[0]] + r)[1..] == r;
      }
    }
  }

  /** A single-spaced string is already collapsed, so collapsing is idempotent. */
  lemma {:induction false} CollapseSpacesFixesSingleSpaced(s: string)
    requires SingleSpaced(s)
    ensures CollapseSpaces(s) == s
    decreases |s|
  {
    if s != [] {
      CollapseSpacesFixesSingleSpaced(s[1..]);
      if IsSpace(s[0]) && |s| > 1 {
        assert TrimStart(s[1..]) == s[1..];
      }
    }
  }

  /** Dropping leading whitespace brings in no character. */
  lemma {:induction false} TrimStartLacks(s: string, c: char)
    requires c !in s
    ensures c !in TrimStart(s)
    decreases |s|
  {
    if s != [] && IsSpace(s[0]) {
      assert s == [s[0]] + s[1..];
      TrimStartLacks(s[1..], c);
    }
  }

  /** Collapsing whitespace brings in no character but the plain space. */
  lemma {:induction false} CollapseSpacesLacks(s: string, c: char)
    requires c !in s && c != ' '
    ensures c !in CollapseSpaces(s)
    decreases |s|
  {
    if s != [] {
      assert s == [s[0]] + s[1..];
      if IsSpace(s[0]) {
        TrimStartLacks(s[1..], c);
        CollapseSpacesLacks(TrimStart(s[1..]), c);
      } else {
        CollapseSpacesLacks(s[1..], c);
      }
    }
  }

  /** `s.replace(/\s+$/, "")`: the longest prefix that does not end in whitespace. */
  function TrimEnd(s: string): (r: string)
    ensures r <= s
    ensures r == [] || !IsSpace(r[|r| - 1])
    ensures forall i :: |r| <= i < |s| ==> IsSpace(s[i])
  {
    if s == [] then []
    else if IsSpace(s[|s| - 1]) then TrimEnd(s[..|s| - 1])
    else s
  }

  /** Trimming the end removes whitespace only. */
  lemma {:induction false} NonSpacesTrimEnd(s: string)
    ensures NonSpaces(TrimEnd(s)) == NonSpaces(s)
    decreases |s|
  {
    if s != [] && IsSpace(s[|s| - 1]) {
      var init := s[..|s| - 1];
      NonSpacesTrimEnd(init);
      NonSpacesAppend(init, [s[|s| - 1]]);
      assert init + [s[|s| - 1]] == s;
    }
  }

  /** `s.replace(/^\n+/, "")`. */
  function StripLeadingNewlines(s: string): (r: string)
    ensures |r| <= |s|
    ensures r == [] || r[0] != '\n'
  {
    if s != [] && s[0] == '\n' then StripLeadingNewlines(s[1..]) else s
  }

  /** Stripping the leading newlines cuts off a prefix made of newlines only. */
  lemma {:induction false} StripLeadingNewlinesSuffix(s: string)
    ensures StripLeadingNewlines(s) == s[|s| - |StripLeadingNewlines(s)|..]
    ensures forall i :: 0 <= i < |s| - |StripLeadingNewlines(s)| ==> s[i] == '\n'
    decreases |s|
  {
    if s != [] && s[0] == '\n' {
      StripLeadingNewlinesSuffix(s[1..]);
      assert s[1..][|s| - 1 - |StripLeadingNewlines(s)|..] == s[|s| - |StripLeadingNewlines(s)|..];
      forall i | 0 < i < |s| - |StripLeadingNewlines(s)| ensures s[i] == '\n' {
        assert s[i] == s[1..][i - 1];
      }
    }
  }

  lemma {:induction false} NonSpacesStripLeadingNewlines(s: string)
    ensures NonSpaces(StripLeadingNewlines(s)) == NonSpaces(s)
    decreases |s|
  {
    if s != [] && s[0] == '\n' {
      NonSpacesStripLeadingNewlines(s[1..]);
    }
  }

  /** `s.replace(/\n+/g, "\n")`. */
  function SqueezeNewlines(s: string): (r: string)
    ensures s != [] ==> r != [] && r[0] == s[0]
    ensures forall i, j :: 0 <= i < |r| && j == i + 1 && j < |r| ==> !(r[i] == '\n' && r[j] == '\n')
  {
    if s == [] then []
    else if |s| >= 2 && s[0] == '\n' && s[1] == '\n' then SqueezeNewlines(s[1..])
    else [s[0]] + SqueezeNewlines(s[1..])
  }

  /** Squeezing newline runs removes newlines only. */
  lemma {:induction false} NonSpacesSqueezeNewlines(s: string)
    ensures NonSpaces(SqueezeNewlines(s)) == NonSpaces(s)
    decreases |s|
  {
    if s != [] {
      NonSpacesSqueezeNewlines(s[1..]);
      if !(|s| >= 2 && s[0] == '\n' && s[1] == '\n') {
        NonSpacesCons(s[0], SqueezeNewlines(s[1..]));
      }
    }
  }

  /** Replacing every `pat` by `pat` followed by whitespace keeps the non-whitespace characters. */
  lemma {:induction false} NonSpacesReplaceAllPadded(s: string, pat: string, pad: string)
    requires pat != [] && NonSpaces(pad) == []
    ensures NonSpaces(ReplaceAll(s, pat, pat + pad)) == NonSpaces(s)
    decreases |s|
  {
    if |s| < |pat| {
    } else if pat <= s {
      NonSpacesReplaceAllPadded(s[|pat|..], pat, pad);
      NonSpacesPaddedCut(s, pat, pad, ReplaceAll(s[|pat|..], pat, pat + pad));
    } else {
      NonSpacesReplaceAllPadded(s[1..], pat, pad);
      NonSpacesCons(s[0], ReplaceAll(s[1..], pat, pat + pad));
      NonSpacesCons(s[0], s[1..]);
    }
  }

  lemma NonSpacesPaddedCut(s: string, pat: string, pad: string, r: string)
    requires pat <= s && NonSpaces(pad) == [] && NonSpaces(r) == NonSpaces(s[|pat|..])
    ensures NonSpaces(pat + pad + r) == NonSpaces(s)
  {
    NonSpacesAppend(pat + pad, r);
    NonSpacesAppend(pat, pad);
    PrefixThenRest(pat, s);
    NonSpacesAppend(pat, s[|pat|..]);
  }
}
