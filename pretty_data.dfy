/**
 * The pretty-printer and minifier of `src/utils/pretty-data.js`: the `PP`
 * object with its indentation table, the XML, CSS and SQL formatters, which
 * cut the text into segments and lay them out one per line, and the
 * `xmlmin`, `cssmin` and `sqlmin` whitespace rewrites.
 *
 * The regular expressions the file uses as segment classifiers are plain
 * substring tests and are written as predicates on strings. The three
 * expressions that are not (the comment strippers of `xmlmin` and
 * `cssmin`, the keyword chain of `split_sql` and the semicolon look-ahead
 * of `sql`) are parameters of the members that use them.
 */
module PrettyData {
  import opened Wrappers
  import opened JsString

  /** Deepest nesting the indentation table has a line for (`maxdeep`). */
  const MaxDeep: nat := 100

  /** The separator the formatters insert and then split on. */
  const Sep: string := "~::~"

  // ---------------------------------------------------------------------------
  // The indentation table
  // ---------------------------------------------------------------------------

  /** `s` repeated `n` times (`s.repeat(n)`). */
  function Repeat(s: string, n: nat): string {
    if n == 0 then [] else s + Repeat(s, n - 1)
  }

  /** Every character of `s` is a plain space. */
  predicate Blank(s: string) {
    forall i :: 0 <= i < |s| ==> s[i] == ' '
  }

  /** The line an indentation table holds for `depth`: a newline, then `depth` copies of `step`. */
  function ShiftLine(step: string, depth: nat): string {
    if depth == 0 then "\n" else ShiftLine(step, depth - 1) + step
  }

  /** `shift` is the table the constructor and `setStep` build from `step`. */
  predicate IsShiftTable(shift: seq<string>, step: string) {
    |shift| == MaxDeep + 1 && forall i :: 0 <= i < |shift| ==> shift[i] == ShiftLine(step, i)
  }

  /**
   * `shift[depth]` as it is concatenated into the output: an index outside
   * the table reads `undefined`, which `+` turns into the text "undefined".
   */
  function Indent(shift: seq<string>, depth: int): string {
    if 0 <= depth < |shift| then shift[depth] else "undefined"
  }

  /** The table has 101 lines; the first is a bare newline and each next one adds `step`. */
  lemma ShiftTableShape(shift: seq<string>, step: string)
    requires IsShiftTable(shift, step)
    ensures |shift| == 101 && shift[0] == "\n"
    ensures forall i :: 0 <= i < MaxDeep ==> shift[i + 1] == shift[i] + step
  {
  }

  /** Closed form of a table line: the newline followed by `step` repeated `depth` times. */
  lemma {:induction false} ShiftLineClosedForm(step: string, depth: nat)
    ensures ShiftLine(step, depth) == "\n" + Repeat(step, depth)
  {
    if depth > 0 {
      ShiftLineClosedForm(step, depth - 1);
      RepeatSnoc(step, depth - 1);
    }
  }

  lemma {:induction false} RepeatSnoc(s: string, n: nat)
    ensures Repeat(s, n + 1) == Repeat(s, n) + s
  {
    if n > 0 {
      RepeatSnoc(s, n - 1);
    }
  }

  /** `" ".repeat(n)` is `n` plain spaces. */
  lemma {:induction false} RepeatSpace(n: nat)
    ensures |Repeat(" ", n)| == n && Blank(Repeat(" ", n))
  {
    if n > 0 {
      RepeatSpace(n - 1);
    }
  }

  /** With a blank step every table line is whitespace only. */
  lemma {:induction false} ShiftLineIsWhitespace(step: string, depth: nat)
    requires Blank(step)
    ensures NonSpaces(ShiftLine(step, depth)) == []
  {
    if depth == 0 {
      assert NonSpaces("\n") == Kept('\n') + NonSpaces([]);
    } else {
      ShiftLineIsWhitespace(step, depth - 1);
      NonSpacesAppend(ShiftLine(step, depth - 1), step);
      BlankIsWhitespace(step);
    }
  }

  lemma {:induction false} BlankIsWhitespace(s: string)
    requires Blank(s)
    ensures NonSpaces(s) == []
  {
    if s != [] {
      assert Blank(s[1..]) by {
        forall i | 0 <= i < |s[1..]| ensures s[1..][i] == ' ' {
          assert s[1..][i] == s[i + 1];
        }
      }
      BlankIsWhitespace(s[1..]);
    }
  }

  /** With a blank step a line of the table is a newline followed by spaces only. */
  lemma {:induction false} ShiftLineShape(step: string, depth: nat)
    requires Blank(step)
    ensures ShiftLine(step, depth) != [] && ShiftLine(step, depth)[0] == '\n'
    ensures forall i :: 1 <= i < |ShiftLine(step, depth)| ==> ShiftLine(step, depth)[i] == ' '
  {
    if depth > 0 {
      ShiftLineShape(step, depth - 1);
      var prev := ShiftLine(step, depth - 1);
      assert ShiftLine(step, depth) == prev + step;
      forall i | 1 <= i < |prev + step| ensures (prev + step)[i] == ' ' {
        if i >= |prev| {
          assert (prev + step)[i] == step[i - |prev|];
        }
      }
    }
  }

  /**
   * The `PP` object: `step` is one level of indentation and `shift[d]` is
   * the line break followed by `d` steps that precedes a segment at depth `d`.
   */
  class PP {
    var shift: seq<string>
    var step: string

    /** The table agrees with the step, and the step is made of spaces. */
    predicate Valid()
      reads this
    {
      IsShiftTable(shift, step) && Blank(step)
    }

    /** `new PP()`: a two-space step and the table built from it. */
    constructor ()
      ensures step == "  " && Valid()
    {
      step := "  ";
      shift := [];
      new;
      RebuildShift();
    }

    /** `this.shift = ['\n']` followed by the loop that pushes `shift[ix] + step` `maxdeep` times. */
    method RebuildShift()
      modifies this
      ensures step == old(step) && IsShiftTable(shift, step)
    {
      shift := ["\n"];
      var ix := 0;
      while ix < MaxDeep
        invariant 0 <= ix <= MaxDeep && |shift| == ix + 1 && step == old(step)
        invariant forall i :: 0 <= i < |shift| ==> shift[i] == ShiftLine(step, i)
      {
        shift := shift + [shift[ix] + step];
        ix := ix + 1;
      }
    }

    /**
     * `setStep(n)`: the step becomes `n` spaces and the table is rebuilt
     * from it. `" ".repeat(n)` throws for a negative `n`; at that point the
     * table has already been reset to `["\n"]` and the step is unchanged,
     * which is the state left behind (`ok` is false).
     */
    method SetStep(n: int) returns (ok: bool)
      modifies this
      ensures ok <==> n >= 0
      ensures ok ==> step == Repeat(" ", n) && Valid()
      ensures !ok ==> step == old(step) && shift == ["\n"]
    {
      shift := ["\n"];
      if n < 0 {
        return false;
      }
      step := Repeat(" ", n);
      RepeatSpace(n);
      RebuildShift();
      ok := true;
    }

    /** `xml(text)`: the loop over the segments. */
    method Xml(text: string) returns (r: string)
      ensures r == XmlOut(shift, text)
    {
      var ar := XmlSegments(text);
      var inComment := false;
      var deep := 0;
      var str := "";
      var ix := 0;
      while ix < |ar|
        invariant 0 <= ix <= |ar|
        invariant XmlState(str, deep, inComment) == XmlWalk(shift, ar[..ix])
      {
        var prev := if ix > 0 then Some(ar[ix - 1]) else None;
        str, deep, inComment := XmlBranch(str, deep, inComment, prev, ar[ix]);
        if !inComment {
          str := TrimEnd(str);
        }
        XmlWalkSnoc(shift, ar, ix);
        ix := ix + 1;
      }
      assert ar[..ix] == ar;
      r := if str != [] && str[0] == '\n' then str[1..] else str;
    }

    /** The chain of branches in the body of `xml()`'s loop, before the trimming. */
    method XmlBranch(str0: string, deep0: int, inComment0: bool, prev: Option<string>, seg: string)
      returns (str: string, deep: int, inComment: bool)
      ensures var a := XmlAction(shift, XmlState(str0, deep0, inComment0), prev, seg);
        str == str0 + a.indent + seg && deep == a.deep && inComment == a.inComment
    {
      str, deep, inComment := str0, deep0, inComment0;
      assert str + [] + seg == str + seg;
      if Contains(seg, "<!") {
        str := str + Indent(shift, deep) + seg;
        inComment := true;
        if EndsComment(seg) || Contains(seg, "!DOCTYPE") {
          inComment := false;
        }
      } else if EndsComment(seg) {
        str := str + seg;
        inComment := false;
      } else if prev.Some? && ClosesPrevious(prev.value, seg) {
        str := str + seg;
        if !inComment {
          deep := deep - 1;
        }
      } else if HasOpenTag(seg) && !Contains(seg, "</") && !Contains(seg, "/>") {
        if !inComment {
          str := str + Indent(shift, deep) + seg;
          deep := deep + 1;
        } else {
          str := str + seg;
        }
      } else if HasOpenTag(seg) && Contains(seg, "</") {
        str := if !inComment then str + Indent(shift, deep) + seg else str + seg;
      } else if Contains(seg, "</") {
        var at := if HasXmlns(seg) then deep else deep - 1;
        deep := deep - 1;
        str := if !inComment then str + Indent(shift, at) + seg else str + seg;
      } else if Contains(seg, "/>") {
        str := if !inComment then str + Indent(shift, deep) + seg else str + seg;
        if HasXmlns(seg) {
          deep := deep - 1;
        }
      } else if Contains(seg, "<?") {
        str := str + Indent(shift, deep) + seg;
      } else if HasXmlns(seg) {
        str := str + Indent(shift, deep) + seg;
      } else {
        str := str + seg;
      }
    }

    /**
     * `css(text)`: every segment is written behind the table line for the
     * current depth, which rises after a segment with `{` and falls before
     * one with `}`; the leading newlines are then removed.
     */
    method Css(text: string) returns (r: string)
      ensures r == CssOut(shift, text)
    {
      var ar := CssSegments(text);
      var deep := 0;
      var str := "";
      var ix := 0;
      while ix < |ar|
        invariant 0 <= ix <= |ar|
        invariant str == CssLines(shift, ar, ix) && deep == Balance(ar[..ix])
      {
        BalanceSnoc(ar, ix);
        if Contains(ar[ix], "{") {
          str := str + Indent(shift, deep) + ar[ix];
          deep := deep + 1;
        } else if Contains(ar[ix], "}") {
          deep := deep - 1;
          str := str + Indent(shift, deep) + ar[ix];
        } else if Contains(ar[ix], "*\\") {
          str := str + Indent(shift, deep) + ar[ix];
        } else {
          str := str + Indent(shift, deep) + ar[ix];
        }
        ix := ix + 1;
      }
      r := StripLeadingNewlines(str);
    }

    /**
     * `sql(text)`, with `split_sql` and the semicolon rewrite at the end as
     * the parameters `split` and `semicolons`: the two loops, then the
     * newline clean-up.
     */
    method Sql(text: string, split: (string, string) -> seq<string>, semicolons: string -> string) returns (r: string)
      ensures r == semicolons(SqlLayout(shift, step, split, text))
    {
      var tab := step;
      var ar := SqlQuoteLoop(QuotePieces(text), split, tab);
      var str := SqlLayoutLoop(ar, tab);
      r := semicolons(SqueezeNewlines(StripLeadingNewlines(str)));
    }

    /** The first loop of `sql()`: quoted pieces are kept whole, the others are cut by `split`. */
    method SqlQuoteLoop(arByQuote: seq<string>, split: (string, string) -> seq<string>, tab: string) returns (ar: seq<string>)
      ensures ar == SqlSegments(split, tab, arByQuote)
    {
      ar := [];
      var ix := 0;
      while ix < |arByQuote|
        invariant 0 <= ix <= |arByQuote|
        invariant ar == SqlSegments(split, tab, arByQuote[..ix])
      {
        SqlSegmentsSnoc(split, tab, arByQuote, ix);
        if ix % 2 == 1 {
          ar := ar + [arByQuote[ix]];
        } else {
          ar := ar + split(arByQuote[ix], tab);
        }
        ix := ix + 1;
      }
      assert arByQuote[..ix] == arByQuote;
    }

    /** The second loop of `sql()`, over an array whose `SELECT` segments it rewrites in place. */
    method SqlLayoutLoop(segs: seq<string>, tab: string) returns (str: string)
      ensures str == SqlWalk(shift, tab, segs).str
    {
      var ar := new string[|segs|](k requires 0 <= k < |segs| => segs[k]);
      var deep, level := 0, 0;
      str := "";
      var ix := 0;
      while ix < ar.Length
        invariant 0 <= ix <= ar.Length == |segs|
        invariant forall k :: ix <= k < ar.Length ==> ar[k] == segs[k]
        invariant SqlState(str, deep, level) == SqlWalk(shift, tab, segs[..ix])
      {
        var seg := ar[ix];
        level := IsSubquery(seg, level);
        if Contains(seg, "SELECT") {
          ar[ix] := ReplaceAll(seg, ",", ",\n" + tab + tab);
        }
        assert ar[ix] == SelectCommas(seg, tab);
        str, deep := SqlBranch(str, deep, level, ar[ix]);
        SqlWalkSnoc(shift, tab, segs, ix);
        ix := ix + 1;
      }
      assert segs[..ix] == segs;
    }

    /** The branches of `sql()`'s second loop after the comma rewrite, for the segment `cur` and the new level. */
    method SqlBranch(str0: string, deep0: int, level: int, cur: string) returns (str: string, deep: int)
      ensures SqlState(str, deep, level) == SqlPlace(shift, str0, deep0, level, cur)
    {
      str, deep := str0, deep0;
      if OpensSubquery(cur) {
        deep := deep + 1;
        str := str + Indent(shift, deep) + cur;
      } else if Contains(cur, "'") {
        if level < 1 && deep != 0 {
          deep := deep - 1;
        }
        str := str + cur;
      } else {
        str := str + Indent(shift, deep) + cur;
        if level < 1 && deep != 0 {
          deep := deep - 1;
        }
      }
    }
  }

  // ---------------------------------------------------------------------------
  // xmlmin: />\s*</g -> "><"
  // ---------------------------------------------------------------------------

  /** After the whitespace run that starts `t` comes a `<`. */
  predicate TagFollows(t: string) {
    TrimStart(t) != [] && TrimStart(t)[0] == '<'
  }

  /** At `i`, `s` has a `>`, at least one whitespace character and then a `<`. */
  predicate GapAt(s: string, i: nat)
    requires i < |s|
  {
    s[i] == '>' && i + 1 < |s| && IsSpace(s[i + 1]) && TagFollows(s[i + 1..])
  }

  /** No whitespace stands between a `>` and the `<` after it. */
  predicate NoTagGaps(s: string) {
    forall i :: 0 <= i < |s| ==> !GapAt(s, i)
  }

  /** `s.replace(/>\s*</g, "><")`. */
  function CloseTagGaps(s: string): (r: string)
    ensures |r| <= |s|
    decreases |s|
  {
    if s == [] then []
    else if s[0] == '>' && TagFollows(s[1..]) then ">" + CloseTagGaps(TrimStart(s[1..]))
    else [s[0]] + CloseTagGaps(s[1..])
  }

  /**
   * `xmlmin(text, preserveComments)`. Without `preserveComments` the
   * comments are first cut out by a regular expression, supplied here as
   * `stripComments`.
   */
  function XmlMin(text: string, preserveComments: bool, stripComments: string -> string): string {
    CloseTagGaps(if preserveComments then text else stripComments(text))
  }

  /** Closing the gaps brings in no character. */
  lemma {:induction false} CloseTagGapsLacks(s: string, c: char)
    requires c !in s
    ensures c !in CloseTagGaps(s)
    decreases |s|
  {
    if s != [] {
      assert s == [s[0]] + s[1..];
      if s[0] == '>' && TagFollows(s[1..]) {
        TrimStartLacks(s[1..], c);
        CloseTagGapsLacks(TrimStart(s[1..]), c);
      } else {
        CloseTagGapsLacks(s[1..], c);
      }
    }
  }

  lemma CloseTagGapsHead(u: string)
    requires u != []
    ensures CloseTagGaps(u) != [] && CloseTagGaps(u)[0] == u[0]
  {
  }

  /** Removing the gaps and removing the leading whitespace can be done in either order. */
  lemma {:induction false} CloseTagGapsTrimStart(t: string)
    ensures TrimStart(CloseTagGaps(t)) == CloseTagGaps(TrimStart(t))
    decreases |t|
  {
    if t != [] {
      CloseTagGapsHead(t);
      if IsSpace(t[0]) {
        var x := CloseTagGaps(t[1..]);
        CloseTagGapsTrimStart(t[1..]);
        assert CloseTagGaps(t) == [t[0]] + x;
        assert ([t[0]] + x)[1..] == x;
      }
    }
  }

  lemma {:induction false} GapAtShift(c: char, r: string, i: nat)
    requires i < |r|
    ensures GapAt([c] + r, i + 1) == GapAt(r, i)
  {
    assert ([c] + r)[i + 2..] == r[i + 1..];
  }

  lemma NoTagGapsCons(c: char, r: string)
    requires NoTagGaps(r)
    requires c == '>' && r != [] && IsSpace(r[0]) ==> !TagFollows(r)
    ensures NoTagGaps([c] + r)
  {
    forall i | 0 <= i < |[c] + r| ensures !GapAt([c] + r, i) {
      if i > 0 {
        GapAtShift(c, r, i - 1);
      } else {
        assert ([c] + r)[1..] == r;
      }
    }
  }

  lemma NoTagGapsTail(c: char, r: string)
    requires NoTagGaps([c] + r)
    ensures NoTagGaps(r)
  {
    forall i | 0 <= i < |r| ensures !GapAt(r, i) {
      GapAtShift(c, r, i);
    }
  }

  /** After `xmlmin`'s rewrite no whitespace is left between a `>` and the following `<`. */
  lemma {:induction false} CloseTagGapsNoGaps(s: string)
    ensures NoTagGaps(CloseTagGaps(s))
    decreases |s|, 1
  {
    if s != [] {
      if s[0] == '>' && TagFollows(s[1..]) {
        CloseTagGapsNoGapsCut(s);
      } else {
        CloseTagGapsNoGapsStep(s);
      }
    }
  }

  lemma {:induction false} CloseTagGapsNoGapsCut(s: string)
    requires s != [] && s[0] == '>' && TagFollows(s[1..])
    ensures NoTagGaps(CloseTagGaps(s))
    decreases |s|, 0
  {
    var t := s[1..];
    var u := TrimStart(t);
    var r := CloseTagGaps(u);
    assert CloseTagGaps(s) == [s[0]] + r;
    CloseTagGapsNoGaps(u);
    CloseTagGapsHead(u);
    NoTagGapsCons('>', r);
  }

  lemma {:induction false} CloseTagGapsNoGapsStep(s: string)
    requires s != [] && !(s[0] == '>' && TagFollows(s[1..]))
    ensures NoTagGaps(CloseTagGaps(s))
    decreases |s|, 0
  {
    var t := s[1..];
    var r := CloseTagGaps(t);
    assert CloseTagGaps(s) == [s[0]] + r;
    CloseTagGapsNoGaps(t);
    if s[0] == '>' {
      CloseTagGapsTrimStart(t);
      if TrimStart(t) != [] {
        CloseTagGapsHead(TrimStart(t));
      }
    }
    NoTagGapsCons(s[0], r);
  }

  /** The rewrite removes whitespace only. */
  lemma {:induction false} CloseTagGapsNonSpaces(s: string)
    ensures NonSpaces(CloseTagGaps(s)) == NonSpaces(s)
    decreases |s|
  {
    if s != [] {
      var t := s[1..];
      NonSpacesCons(s[0], t);
      assert [s[0]] + t == s;
      if s[0] == '>' && TagFollows(t) {
        var u := TrimStart(t);
        CloseTagGapsNonSpaces(u);
        NonSpacesTrimStart(t);
        NonSpacesCons('>', CloseTagGaps(u));
        assert CloseTagGaps(s) == [s[0]] + CloseTagGaps(u);
      } else {
        CloseTagGapsNonSpaces(t);
        NonSpacesCons(s[0], CloseTagGaps(t));
      }
    }
  }

  /** A text is left unchanged exactly when it has no whitespace between a `>` and a `<`. */
  lemma {:induction false} CloseTagGapsFixedPoints(s: string)
    ensures CloseTagGaps(s) == s <==> NoTagGaps(s)
    decreases |s|
  {
    CloseTagGapsNoGaps(s);
    if NoTagGaps(s) && s != [] {
      var t := s[1..];
      assert s == [s[0]] + t;
      NoTagGapsTail(s[0], t);
      CloseTagGapsFixedPoints(t);
      if s[0] == '>' && TagFollows(t) {
        assert !GapAt(s, 0);
        assert TrimStart(t) == t;
      }
    }
  }

  /** `xmlmin(text, true)` is idempotent. */
  lemma XmlMinIdempotent(text: string, stripComments: string -> string)
    ensures XmlMin(XmlMin(text, true, stripComments), true, stripComments) == XmlMin(text, true, stripComments)
  {
    CloseTagGapsNoGaps(text);
    CloseTagGapsFixedPoints(CloseTagGaps(text));
  }

  /** Whatever the comment stripper does, `xmlmin`'s result has no whitespace between `>` and `<`. */
  lemma XmlMinNoGaps(text: string, preserveComments: bool, stripComments: string -> string)
    ensures NoTagGaps(XmlMin(text, preserveComments, stripComments))
    ensures preserveComments ==> NonSpaces(XmlMin(text, preserveComments, stripComments)) == NonSpaces(text)
  {
    CloseTagGapsNoGaps(if preserveComments then text else stripComments(text));
    CloseTagGapsNonSpaces(text);
  }

  // ---------------------------------------------------------------------------
  // cssmin: /\s+/g -> " ", then /\{\s+/g -> "{", /}\s+/g -> "}", /;\s+/g -> ";",
  // /\/\*\s+/g -> "/*" and /\*\/\s+/g -> "*/"
  // ---------------------------------------------------------------------------

  /** `s` starts with `pat` and a whitespace character comes right after it. */
  predicate PatThenSpace(s: string, pat: string) {
    pat <= s && |pat| < |s| && IsSpace(s[|pat|])
  }

  /** `s.replace(/pat\s+/g, pat)` for a literal `pat`. */
  function DropSpacesAfter(s: string, pat: string): string
    requires pat != []
    decreases |s|
  {
    if |s| < |pat| then s
    else if PatThenSpace(s, pat) then pat + DropSpacesAfter(TrimStart(s[|pat| + 1..]), pat)
    else [s[0]] + DropSpacesAfter(s[1..], pat)
  }

  /** No whitespace directly follows a `c` in `s`. */
  predicate NoSpaceAfter(s: string, c: char) {
    s == [] || ((s[0] == c && |s| > 1 ==> !IsSpace(s[1])) && NoSpaceAfter(s[1..], c))
  }

  /**
   * `cssmin(text, preserveComments)`. Without `preserveComments` the
   * comments are first cut out by a regular expression, supplied here as
   * `stripComments`.
   */
  function CssMin(text: string, preserveComments: bool, stripComments: string -> string): string {
    var s := CollapseSpaces(if preserveComments then text else stripComments(text));
    DropSpacesAfter(DropSpacesAfter(DropSpacesAfter(DropSpacesAfter(DropSpacesAfter(s, "{"), "}"), ";"), "/*"), "*/")
  }

  lemma DropSpacesAfterHead(t: string, pat: string)
    requires pat != [] && t != []
    ensures DropSpacesAfter(t, pat) != [] && DropSpacesAfter(t, pat)[0] == t[0]
  {
  }

  lemma {:induction false} SingleSpacedAppend(a: string, b: string)
    requires SingleSpaced(a) && SingleSpaced(b)
    requires a != [] && b != [] && IsSpace(a[|a| - 1]) ==> !IsSpace(b[0])
    ensures SingleSpaced(a + b)
    decreases |a|
  {
    if a == [] {
      assert a + b == b;
    } else {
      assert (a + b)[1..] == a[1..] + b;
      SingleSpacedAppend(a[1..], b);
    }
  }

  lemma {:induction false} SingleSpacedSuffix(s: string, k: nat)
    requires SingleSpaced(s) && k <= |s|
    ensures SingleSpaced(s[k..])
    decreases k
  {
    if k > 0 {
      SingleSpacedSuffix(s[1..], k - 1);
      assert s[1..][k - 1..] == s[k..];
    }
  }

  lemma {:induction false} SingleSpacedPrefix(s: string, n: nat)
    requires SingleSpaced(s) && n <= |s|
    ensures SingleSpaced(s[..n])
    decreases n
  {
    if n > 0 {
      SingleSpacedPrefix(s[1..], n - 1);
      assert s[..n][1..] == s[1..][..n - 1];
    }
  }

  lemma {:induction false} NoSpaceAfterAppend(a: string, b: string, c: char)
    requires NoSpaceAfter(a, c) && NoSpaceAfter(b, c)
    requires a != [] && b != [] && a[|a| - 1] == c ==> !IsSpace(b[0])
    ensures NoSpaceAfter(a + b, c)
    decreases |a|
  {
    if a == [] {
      assert a + b == b;
    } else {
      assert (a + b)[1..] == a[1..] + b;
      NoSpaceAfterAppend(a[1..], b, c);
    }
  }

  lemma {:induction false} NoSpaceAfterSuffix(s: string, c: char, k: nat)
    requires NoSpaceAfter(s, c) && k <= |s|
    ensures NoSpaceAfter(s[k..], c)
    decreases k
  {
    if k > 0 {
      NoSpaceAfterSuffix(s[1..], c, k - 1);
      assert s[1..][k - 1..] == s[k..];
    }
  }

  lemma {:induction false} NoSpaceAfterPrefix(s: string, c: char, n: nat)
    requires NoSpaceAfter(s, c) && n <= |s|
    ensures NoSpaceAfter(s[..n], c)
    decreases n
  {
    if n > 0 {
      NoSpaceAfterPrefix(s[1..], c, n - 1);
      assert s[..n][1..] == s[1..][..n - 1];
    }
  }

  lemma {:induction false} NoSpaceAfterTrimStart(s: string, c: char)
    requires NoSpaceAfter(s, c)
    ensures NoSpaceAfter(TrimStart(s), c)
    decreases |s|
  {
    if s != [] && IsSpace(s[0]) {
      NoSpaceAfterTrimStart(s[1..], c);
    }
  }

  /** Removing whitespace after `pat` removes whitespace only. */
  lemma {:induction false} DropSpacesAfterNonSpaces(s: string, pat: string)
    requires pat != []
    ensures NonSpaces(DropSpacesAfter(s, pat)) == NonSpaces(s)
    decreases |s|, 1
  {
    if |s| >= |pat| {
      if PatThenSpace(s, pat) {
        DropSpacesAfterNonSpacesCut(s, pat);
      } else {
        DropSpacesAfterNonSpacesStep(s, pat);
      }
    }
  }

  lemma {:induction false} DropSpacesAfterNonSpacesCut(s: string, pat: string)
    requires pat != [] && PatThenSpace(s, pat)
    ensures NonSpaces(DropSpacesAfter(s, pat)) == NonSpaces(s)
    decreases |s|, 0
  {
    var rest := s[|pat|..];
    var after := s[|pat| + 1..];
    var u := TrimStart(after);
    var r := DropSpacesAfter(u, pat);
    assert DropSpacesAfter(s, pat) == pat + r;
    DropSpacesAfterNonSpaces(u, pat);
    NonSpacesTrimStart(after);
    DropCons(s, |pat|);
    NonSpacesCons(s[|pat|], after);
    PrefixThenRest(pat, s);
    NonSpacesOfJoin(pat, rest, r);
  }

  /** Replacing the tail by one with the same non-whitespace characters keeps those of the whole. */
  lemma NonSpacesOfJoin(a: string, b: string, b': string)
    requires NonSpaces(b') == NonSpaces(b)
    ensures NonSpaces(a + b') == NonSpaces(a + b)
  {
    NonSpacesAppend(a, b);
    NonSpacesAppend(a, b');
  }

  lemma {:induction false} DropSpacesAfterNonSpacesStep(s: string, pat: string)
    requires pat != [] && |s| >= |pat| && !PatThenSpace(s, pat)
    ensures NonSpaces(DropSpacesAfter(s, pat)) == NonSpaces(s)
    decreases |s|, 0
  {
    DropSpacesAfterNonSpaces(s[1..], pat);
    NonSpacesCons(s[0], s[1..]);
    assert s == [s[0]] + s[1..];
    NonSpacesCons(s[0], DropSpacesAfter(s[1..], pat));
  }

  /** Removing whitespace after `pat` keeps a single-spaced text single-spaced. */
  lemma {:induction false} DropSpacesAfterSingleSpaced(s: string, pat: string)
    requires pat != [] && SingleSpaced(s)
    ensures SingleSpaced(DropSpacesAfter(s, pat))
    decreases |s|, 1
  {
    if |s| >= |pat| {
      if PatThenSpace(s, pat) {
        DropSpacesAfterSingleSpacedCut(s, pat);
      } else {
        DropSpacesAfterSingleSpacedStep(s, pat);
      }
    }
  }

  lemma {:induction false} DropSpacesAfterSingleSpacedCut(s: string, pat: string)
    requires pat != [] && SingleSpaced(s) && PatThenSpace(s, pat)
    ensures SingleSpaced(DropSpacesAfter(s, pat))
    decreases |s|, 0
  {
    var after := s[|pat| + 1..];
    var u := TrimStart(after);
    SingleSpacedSuffix(s, |pat| + 1);
    SingleSpacedTrimStart(after);
    SingleSpacedPrefix(s, |pat|);
    assert s[..|pat|] == pat;
    var r := DropSpacesAfter(u, pat);
    DropSpacesAfterSingleSpaced(u, pat);
    if u != [] {
      DropSpacesAfterHead(u, pat);
    }
    SingleSpacedAppend(pat, r);
  }

  lemma {:induction false} DropSpacesAfterSingleSpacedStep(s: string, pat: string)
    requires pat != [] && SingleSpaced(s) && |s| >= |pat| && !PatThenSpace(s, pat)
    ensures SingleSpaced(DropSpacesAfter(s, pat))
    decreases |s|, 0
  {
    var t := s[1..];
    var r := DropSpacesAfter(t, pat);
    DropSpacesAfterSingleSpaced(t, pat);
    if t != [] {
      DropSpacesAfterHead(t, pat);
    }
    assert ([s[0]] + r)[1..] == r;
  }

  /** Removing whitespace after `pat` leaves no whitespace after a one-character `pat`. */
  lemma {:induction false} DropSpacesAfterMakesNoSpaceAfter(s: string, c: char)
    ensures NoSpaceAfter(DropSpacesAfter(s, [c]), c)
    decreases |s|, 1
  {
    if |s| >= 1 {
      if PatThenSpace(s, [c]) {
        MakesNoSpaceAfterCut(s, c);
      } else {
        MakesNoSpaceAfterStep(s, c);
      }
    }
  }

  lemma {:induction false} MakesNoSpaceAfterCut(s: string, c: char)
    requires PatThenSpace(s, [c])
    ensures NoSpaceAfter(DropSpacesAfter(s, [c]), c)
    decreases |s|, 0
  {
    var u := TrimStart(s[2..]);
    DropSpacesAfterMakesNoSpaceAfter(u, c);
    var r := DropSpacesAfter(u, [c]);
    if u != [] {
      DropSpacesAfterHead(u, [c]);
    }
    assert ([c] + r)[1..] == r;
  }

  lemma {:induction false} MakesNoSpaceAfterStep(s: string, c: char)
    requires |s| >= 1 && !PatThenSpace(s, [c])
    ensures NoSpaceAfter(DropSpacesAfter(s, [c]), c)
    decreases |s|, 0
  {
    var t := s[1..];
    DropSpacesAfterMakesNoSpaceAfter(t, c);
    var r := DropSpacesAfter(t, [c]);
    if t != [] {
      DropSpacesAfterHead(t, [c]);
      assert s[0] == c ==> [c] <= s;
    }
    assert ([s[0]] + r)[1..] == r;
  }

  /** Removing whitespace after any `pat` creates no whitespace after a `c`. */
  lemma {:induction false} DropSpacesAfterKeepsNoSpaceAfter(s: string, pat: string, c: char)
    requires pat != [] && NoSpaceAfter(s, c)
    ensures NoSpaceAfter(DropSpacesAfter(s, pat), c)
    decreases |s|, 1
  {
    if |s| >= |pat| {
      if PatThenSpace(s, pat) {
        KeepsNoSpaceAfterCut(s, pat, c);
      } else {
        KeepsNoSpaceAfterStep(s, pat, c);
      }
    }
  }

  lemma {:induction false} KeepsNoSpaceAfterCut(s: string, pat: string, c: char)
    requires pat != [] && NoSpaceAfter(s, c) && PatThenSpace(s, pat)
    ensures NoSpaceAfter(DropSpacesAfter(s, pat), c)
    decreases |s|, 0
  {
    var after := s[|pat| + 1..];
    var u := TrimStart(after);
    NoSpaceAfterSuffix(s, c, |pat| + 1);
    NoSpaceAfterTrimStart(after, c);
    NoSpaceAfterPrefix(s, c, |pat|);
    assert s[..|pat|] == pat;
    var r := DropSpacesAfter(u, pat);
    DropSpacesAfterKeepsNoSpaceAfter(u, pat, c);
    if u != [] {
      DropSpacesAfterHead(u, pat);
    }
    NoSpaceAfterAppend(pat, r, c);
  }

  lemma {:induction false} KeepsNoSpaceAfterStep(s: string, pat: string, c: char)
    requires pat != [] && NoSpaceAfter(s, c) && |s| >= |pat| && !PatThenSpace(s, pat)
    ensures NoSpaceAfter(DropSpacesAfter(s, pat), c)
    decreases |s|, 0
  {
    var t := s[1..];
    var r := DropSpacesAfter(t, pat);
    DropSpacesAfterKeepsNoSpaceAfter(t, pat, c);
    if t != [] {
      DropSpacesAfterHead(t, pat);
    }
    assert ([s[0]] + r)[1..] == r;
  }

  /**
   * `cssmin`'s result is single-spaced, has no whitespace right after `{`,
   * `}` or `;`, and, when comments are kept, differs from the input in
   * whitespace only.
   */
  lemma CssMinShape(text: string, preserveComments: bool, stripComments: string -> string)
    ensures SingleSpaced(CssMin(text, preserveComments, stripComments))
    ensures NoSpaceAfter(CssMin(text, preserveComments, stripComments), '{')
    ensures NoSpaceAfter(CssMin(text, preserveComments, stripComments), '}')
    ensures NoSpaceAfter(CssMin(text, preserveComments, stripComments), ';')
    ensures preserveComments ==> NonSpaces(CssMin(text, preserveComments, stripComments)) == NonSpaces(text)
  {
    var t := if preserveComments then text else stripComments(text);
    var s0 := CollapseSpaces(t);
    CollapseSpacesSingleSpaced(t);
    var s1 := DropSpacesAfter(s0, "{");
    var s2 := DropSpacesAfter(s1, "}");
    var s3 := DropSpacesAfter(s2, ";");
    var s4 := DropSpacesAfter(s3, "/*");
    var s5 := DropSpacesAfter(s4, "*/");
    // single spacing survives every step
    DropSpacesAfterSingleSpaced(s0, "{");
    DropSpacesAfterSingleSpaced(s1, "}");
    DropSpacesAfterSingleSpaced(s2, ";");
    DropSpacesAfterSingleSpaced(s3, "/*");
    DropSpacesAfterSingleSpaced(s4, "*/");
    // no whitespace after '{'
    DropSpacesAfterMakesNoSpaceAfter(s0, '{');
    DropSpacesAfterKeepsNoSpaceAfter(s1, "}", '{');
    DropSpacesAfterKeepsNoSpaceAfter(s2, ";", '{');
    DropSpacesAfterKeepsNoSpaceAfter(s3, "/*", '{');
    DropSpacesAfterKeepsNoSpaceAfter(s4, "*/", '{');
    // no whitespace after '}'
    DropSpacesAfterMakesNoSpaceAfter(s1, '}');
    DropSpacesAfterKeepsNoSpaceAfter(s2, ";", '}');
    DropSpacesAfterKeepsNoSpaceAfter(s3, "/*", '}');
    DropSpacesAfterKeepsNoSpaceAfter(s4, "*/", '}');
    // no whitespace after ';'
    DropSpacesAfterMakesNoSpaceAfter(s2, ';');
    DropSpacesAfterKeepsNoSpaceAfter(s3, "/*", ';');
    DropSpacesAfterKeepsNoSpaceAfter(s4, "*/", ';');
    // only whitespace changes
    DropSpacesAfterNonSpaces(s0, "{");
    DropSpacesAfterNonSpaces(s1, "}");
    DropSpacesAfterNonSpaces(s2, ";");
    DropSpacesAfterNonSpaces(s3, "/*");
    DropSpacesAfterNonSpaces(s4, "*/");
  }

  // ---------------------------------------------------------------------------
  // sqlmin: /\s+/g -> " ", then /\s+\(/ -> "(" and /\s+\)/ -> ")" (first match only)
  // ---------------------------------------------------------------------------

  /** `s` starts with a whitespace run and a `c` follows it. */
  predicate SpacesThen(s: string, c: char) {
    s != [] && IsSpace(s[0]) && TrimStart(s) != [] && TrimStart(s)[0] == c
  }

  /** `s.replace(/\s+c/, c)`: the first whitespace run that ends at a `c` is removed. */
  function DropSpacesBeforeFirst(s: string, c: char): string
    decreases |s|
  {
    if s == [] then []
    else if SpacesThen(s, c) then TrimStart(s)
    else [s[0]] + DropSpacesBeforeFirst(s[1..], c)
  }

  /** `sqlmin(text)`. */
  function SqlMin(text: string): string {
    DropSpacesBeforeFirst(DropSpacesBeforeFirst(CollapseSpaces(text), '('), ')')
  }

  /** At `i`, `s` has a whitespace character directly before a `c`. */
  predicate SpaceBefore(s: string, i: int, c: char) {
    0 <= i && i + 1 < |s| && IsSpace(s[i]) && s[i + 1] == c
  }

  /** A whitespace run followed by `c` ends in a whitespace character directly before that `c`. */
  lemma {:induction false} SpacesThenHasSpaceBefore(s: string, c: char)
    requires SpacesThen(s, c)
    ensures SpaceBefore(s, |s| - |TrimStart(s)| - 1, c)
    decreases |s|
  {
    var t := s[1..];
    if t != [] && IsSpace(t[0]) {
      SpacesThenHasSpaceBefore(t, c);
      assert s[|s| - |TrimStart(s)|] == t[|t| - |TrimStart(t)|];
    } else {
      assert TrimStart(t) == t;
    }
  }

  /** When no whitespace stands directly before a `c` the text is unchanged. */
  lemma {:induction false} DropSpacesBeforeFirstNone(s: string, c: char)
    requires forall i :: !SpaceBefore(s, i, c)
    ensures DropSpacesBeforeFirst(s, c) == s
    decreases |s|
  {
    if s != [] {
      if SpacesThen(s, c) {
        SpacesThenHasSpaceBefore(s, c);
        assert false;
      }
      forall i ensures !SpaceBefore(s[1..], i, c) {
        assert SpaceBefore(s[1..], i, c) ==> SpaceBefore(s, i + 1, c);
      }
      DropSpacesBeforeFirstNone(s[1..], c);
    }
  }

  /**
   * In a single-spaced text, with `i` the first place where a space stands
   * directly before a `c`, exactly that space is removed.
   */
  lemma {:induction false} DropSpacesBeforeFirstCut(s: string, c: char, i: nat)
    requires SingleSpaced(s) && !IsSpace(c)
    requires SpaceBefore(s, i, c)
    requires forall j :: 0 <= j < i ==> !SpaceBefore(s, j, c)
    ensures DropSpacesBeforeFirst(s, c) == s[..i] + s[i + 1..]
    decreases i
  {
    var t := s[1..];
    if i == 0 {
      assert TrimStart(t) == t;
      assert DropSpacesBeforeFirst(s, c) == t;
    } else {
      DropSpacesBeforeFirstKeepsHead(s, c, i);
      DropSpacesBeforeFirstCut(t, c, i - 1);
      CutOutCons(s, i);
    }
  }

  /** Before the first place where whitespace stands before `c`, the first character is kept. */
  lemma DropSpacesBeforeFirstKeepsHead(s: string, c: char, i: nat)
    requires SingleSpaced(s) && !IsSpace(c)
    requires 0 < i && SpaceBefore(s, i, c)
    requires forall j :: 0 <= j < i ==> !SpaceBefore(s, j, c)
    ensures DropSpacesBeforeFirst(s, c) == [s[0]] + DropSpacesBeforeFirst(s[1..], c)
    ensures SingleSpaced(s[1..]) && SpaceBefore(s[1..], i - 1, c)
    ensures forall j :: 0 <= j < i - 1 ==> !SpaceBefore(s[1..], j, c)
  {
    var t := s[1..];
    if IsSpace(s[0]) {
      assert !IsSpace(t[0]) && TrimStart(t) == t;
      assert !SpaceBefore(s, 0, c);
    }
    forall j | 0 <= j < i - 1 ensures !SpaceBefore(t, j, c) {
      assert SpaceBefore(t, j, c) ==> SpaceBefore(s, j + 1, c);
    }
  }

  lemma CutOutCons(s: string, i: nat)
    requires 0 < i < |s|
    ensures s[..i] + s[i + 1..] == [s[0]] + (s[1..][..i - 1] + s[1..][i..])
  {
    assert s[..i] == [s[0]] + s[1..][..i - 1];
    assert s[i + 1..] == s[1..][i..];
  }

  /** The rewrite removes whitespace only. */
  lemma {:induction false} DropSpacesBeforeFirstNonSpaces(s: string, c: char)
    ensures NonSpaces(DropSpacesBeforeFirst(s, c)) == NonSpaces(s)
    decreases |s|
  {
    if s != [] {
      if SpacesThen(s, c) {
        NonSpacesTrimStart(s);
      } else {
        var t := s[1..];
        var r := DropSpacesBeforeFirst(t, c);
        assert DropSpacesBeforeFirst(s, c) == [s[0]] + r;
        DropSpacesBeforeFirstNonSpaces(t, c);
        NonSpacesCons(s[0], t);
        assert s == [s[0]] + t;
        NonSpacesCons(s[0], r);
      }
    }
  }

  /** The rewrite keeps a single-spaced text single-spaced. */
  lemma {:induction false} DropSpacesBeforeFirstSingleSpaced(s: string, c: char)
    requires SingleSpaced(s)
    ensures SingleSpaced(DropSpacesBeforeFirst(s, c))
    decreases |s|
  {
    if s != [] {
      if SpacesThen(s, c) {
        SingleSpacedTrimStart(s);
      } else {
        var t := s[1..];
        var r := DropSpacesBeforeFirst(t, c);
        assert DropSpacesBeforeFirst(s, c) == [s[0]] + r;
        DropSpacesBeforeFirstSingleSpaced(t, c);
        if t != [] && IsSpace(s[0]) {
          assert !IsSpace(t[0]);
          assert r != [] && r[0] == t[0];
        }
        assert ([s[0]] + r)[1..] == r;
      }
    }
  }

  /** `sqlmin`'s result is single-spaced and differs from the input in whitespace only. */
  lemma SqlMinShape(text: string)
    ensures SingleSpaced(SqlMin(text))
    ensures NonSpaces(SqlMin(text)) == NonSpaces(text)
  {
    var s0 := CollapseSpaces(text);
    CollapseSpacesSingleSpaced(text);
    var s1 := DropSpacesBeforeFirst(s0, '(');
    DropSpacesBeforeFirstNonSpaces(s0, '(');
    DropSpacesBeforeFirstSingleSpaced(s0, '(');
    DropSpacesBeforeFirstNonSpaces(s1, ')');
    DropSpacesBeforeFirstSingleSpaced(s1, ')');
  }

  // ---------------------------------------------------------------------------
  // The separator: the cuts the rewrites put in, and what joining takes out
  // ---------------------------------------------------------------------------

  /**
   * Read from left to right, every `~` of `s` starts a whole separator: what
   * a text without `~` looks like once the rewrites have put cuts into it.
   */
  predicate Marked(s: string)
    decreases |s|
  {
    s == [] || (Sep <= s && Marked(s[|Sep|..])) || (s[0] != '~' && Marked(s[1..]))
  }

  /** A pattern that does not start with `c` is not matched at a leading `c`. */
  lemma SkipChar(c: char, t: string, pat: string, rep: string)
    requires pat != [] && pat[0] != c
    ensures ReplaceAll([c] + t, pat, rep) == [c] + ReplaceAll(t, pat, rep)
  {
    assert ([c] + t)[1..] == t;
    if |[c] + t| < |pat| {
      assert ReplaceAll(t, pat, rep) == t;
    }
  }

  /** A pattern that starts with neither `~` nor `:` is not matched inside a leading separator. */
  lemma SkipSep(t: string, pat: string, rep: string)
    requires pat != [] && pat[0] != '~' && pat[0] != ':'
    ensures ReplaceAll(Sep + t, pat, rep) == Sep + ReplaceAll(t, pat, rep)
  {
    var x3 := ['~'] + t;
    var x2 := [':'] + x3;
    var x1 := [':'] + x2;
    SkipChar('~', t, pat, rep);
    SkipChar(':', x3, pat, rep);
    SkipChar(':', x2, pat, rep);
    SkipChar('~', x1, pat, rep);
    SepSpelled(t);
    SepSpelled(ReplaceAll(t, pat, rep));
  }

  lemma SepSpelled(t: string)
    ensures Sep + t == ['~'] + ([':'] + ([':'] + (['~'] + t)))
  {
  }

  /** Removing the separators drops a leading one. */
  lemma UnmarkSep(t: string)
    ensures ReplaceAll(Sep + t, Sep, "") == ReplaceAll(t, Sep, "")
  {
    assert Sep <= Sep + t;
    assert (Sep + t)[|Sep|..] == t;
  }

  /** A text without `~` is marked and has no separator to remove. */
  lemma {:induction false} UnmarkPlain(a: string)
    requires '~' !in a
    ensures Marked(a) && ReplaceAll(a, Sep, "") == a
    decreases |a|
  {
    if a != [] {
      assert a == [a[0]] + a[1..];
      UnmarkPlain(a[1..]);
      SkipChar(a[0], a[1..], Sep, "");
    }
  }

  /** Removing the separators goes piece by piece once the first piece is marked. */
  lemma {:induction false} UnmarkAppend(a: string, b: string)
    requires Marked(a)
    ensures ReplaceAll(a + b, Sep, "") == ReplaceAll(a, Sep, "") + ReplaceAll(b, Sep, "")
    decreases |a|
  {
    if a == [] {
      assert a + b == b;
    } else if Sep <= a {
      var r := a[|Sep|..];
      assert a == Sep + r;
      assert a + b == Sep + (r + b);
      UnmarkAppend(r, b);
      UnmarkSep(r + b);
      UnmarkSep(r);
    } else {
      var r := a[1..];
      assert a == [a[0]] + r;
      assert a + b == [a[0]] + (r + b);
      UnmarkAppend(r, b);
      SkipChar(a[0], r + b, Sep, "");
      SkipChar(a[0], r, Sep, "");
    }
  }

  lemma MarkedSep(x: string)
    requires Marked(x)
    ensures Marked(Sep + x)
  {
    assert (Sep + x)[|Sep|..] == x;
  }

  lemma MarkedCons(c: char, x: string)
    requires c != '~' && Marked(x)
    ensures Marked([c] + x)
  {
    assert ([c] + x)[1..] == x;
  }

  lemma SepAssoc(r: string, b: string)
    ensures Sep + r + b == Sep + (r + b)
  {
  }

  lemma {:induction false} MarkedAppend(a: string, b: string)
    requires Marked(a) && Marked(b)
    ensures Marked(a + b)
    decreases |a|
  {
    if a == [] {
      assert a + b == b;
    } else if Sep <= a {
      var r := a[|Sep|..];
      MarkedAppend(r, b);
      PrefixThenRest(Sep, a);
      SepAssoc(r, b);
      MarkedSep(r + b);
    } else {
      MarkedAppend(a[1..], b);
      TailOfAppend(a, b);
      MarkedCons(a[0], a[1..] + b);
      assert [a[0]] + (a[1..] + b) == a + b;
    }
  }

  lemma {:induction false} MarkedDrop(a: string, b: string)
    requires '~' !in a && Marked(a + b)
    ensures Marked(b)
    decreases |a|
  {
    if a == [] {
      assert a + b == b;
    } else {
      assert (a + b)[0] == a[0];
      assert (a + b)[1..] == a[1..] + b;
      MarkedDrop(a[1..], b);
    }
  }

  /** A cut between a text without `~` and a marked rest. */
  lemma CutMarked(a: string, b: string)
    requires '~' !in a && Marked(b)
    ensures Marked(a + Sep + b) && ReplaceAll(a + Sep + b, Sep, "") == a + ReplaceAll(b, Sep, "")
  {
    UnmarkPlain(a);
    assert Marked(Sep + b) by {
      assert (Sep + b)[|Sep|..] == b;
    }
    MarkedAppend(a, Sep + b);
    assert a + Sep + b == a + (Sep + b);
    UnmarkAppend(a, Sep + b);
    UnmarkSep(b);
  }

  /**
   * Replacing a pattern without `~` by a cut version of itself keeps a text
   * marked and leaves what removing the separators gives unchanged.
   */
  lemma {:induction false} ReplaceKeepsUnmarked(s: string, pat: string, rep: string)
    requires Marked(s) && Marked(rep)
    requires pat != [] && '~' !in pat && pat[0] != ':'
    requires ReplaceAll(rep, Sep, "") == pat
    ensures Marked(ReplaceAll(s, pat, rep))
    ensures ReplaceAll(ReplaceAll(s, pat, rep), Sep, "") == ReplaceAll(s, Sep, "")
    decreases |s|
  {
    if Sep <= s {
      var r := s[|Sep|..];
      assert s == Sep + r;
      ReplaceKeepsUnmarked(r, pat, rep);
      var x := ReplaceAll(r, pat, rep);
      SkipSep(r, pat, rep);
      assert Marked(Sep + x) by {
        assert (Sep + x)[|Sep|..] == x;
      }
      UnmarkSep(x);
      UnmarkSep(r);
    } else if |s| < |pat| {
    } else if pat <= s {
      var r := s[|pat|..];
      assert s == pat + r;
      UnmarkPlain(pat);
      MarkedDrop(pat, r);
      ReplaceKeepsUnmarked(r, pat, rep);
      var x := ReplaceAll(r, pat, rep);
      MarkedAppend(rep, x);
      UnmarkAppend(rep, x);
      UnmarkAppend(pat, r);
    } else {
      var r := s[1..];
      assert s == [s[0]] + r;
      ReplaceKeepsUnmarked(r, pat, rep);
      var x := ReplaceAll(r, pat, rep);
      assert ([s[0]] + x)[1..] == x;
      SkipChar(s[0], x, Sep, "");
      SkipChar(s[0], r, Sep, "");
    }
  }

  /** The rewrites' case of the above: the replacement is the pattern with a cut put into it. */
  lemma ReplaceByCut(s: string, pat: string, a: string, b: string)
    requires Marked(s) && Marked(b) && '~' !in a
    requires pat == a + ReplaceAll(b, Sep, "") && pat != [] && '~' !in pat && pat[0] != ':'
    ensures Marked(ReplaceAll(s, pat, a + Sep + b))
    ensures ReplaceAll(ReplaceAll(s, pat, a + Sep + b), Sep, "") == ReplaceAll(s, Sep, "")
  {
    CutMarked(a, b);
    ReplaceKeepsUnmarked(s, pat, a + Sep + b);
  }

  /** Marked, and no separator is followed by a newline: no piece after a cut starts with one. */
  predicate CleanCuts(s: string)
    decreases |s|
  {
    || s == []
    || (Sep <= s && (|s| == |Sep| || s[|Sep|] != '\n') && CleanCuts(s[|Sep|..]))
    || (s[0] != '~' && CleanCuts(s[1..]))
  }

  lemma {:induction false} CleanPlain(a: string)
    requires '~' !in a
    ensures CleanCuts(a)
    decreases |a|
  {
    if a != [] {
      assert a == [a[0]] + a[1..];
      CleanPlain(a[1..]);
    }
  }

  /** Two pieces with clean cuts make one, as long as the first does not end in a cut. */
  lemma CleanSep(x: string)
    requires CleanCuts(x) && (x == [] || x[0] != '\n')
    ensures CleanCuts(Sep + x)
  {
    assert (Sep + x)[|Sep|..] == x;
  }

  lemma CleanCons(c: char, x: string)
    requires c != '~' && CleanCuts(x)
    ensures CleanCuts([c] + x)
  {
    assert ([c] + x)[1..] == x;
  }

  /** Two pieces with clean cuts make one, as long as the first does not end in a cut. */
  lemma {:induction false} CleanAppend(a: string, b: string)
    requires CleanCuts(a) && CleanCuts(b) && (a == [] || a[|a| - 1] != '~')
    ensures CleanCuts(a + b)
    decreases |a|
  {
    if a == [] {
      assert a + b == b;
    } else if Sep <= a {
      var r := a[|Sep|..];
      PrefixThenRest(Sep, a);
      assert r != [] && r[|r| - 1] == a[|a| - 1];
      CleanAppend(r, b);
      SepAssoc(r, b);
      CleanSep(r + b);
    } else {
      var r := a[1..];
      assert r == [] || r[|r| - 1] == a[|a| - 1];
      CleanAppend(r, b);
      TailOfAppend(a, b);
      CleanCons(a[0], r + b);
      assert [a[0]] + (r + b) == a + b;
    }
  }

  lemma {:induction false} CleanDrop(a: string, b: string)
    requires '~' !in a && CleanCuts(a + b)
    ensures CleanCuts(b)
    decreases |a|
  {
    if a == [] {
      assert a + b == b;
    } else {
      assert (a + b)[0] == a[0];
      assert (a + b)[1..] == a[1..] + b;
      CleanDrop(a[1..], b);
    }
  }

  /**
   * Replacing a pattern without `~` by a replacement with clean cuts that
   * neither starts with a newline nor ends in a cut keeps the cuts clean.
   */
  lemma {:induction false} ReplaceKeepsClean(s: string, pat: string, rep: string)
    requires CleanCuts(s) && CleanCuts(rep)
    requires rep != [] && rep[0] != '\n' && rep[|rep| - 1] != '~'
    requires pat != [] && '~' !in pat && pat[0] != ':'
    ensures CleanCuts(ReplaceAll(s, pat, rep))
    decreases |s|
  {
    if Sep <= s {
      var r := s[|Sep|..];
      assert s == Sep + r;
      ReplaceKeepsClean(r, pat, rep);
      var x := ReplaceAll(r, pat, rep);
      SkipSep(r, pat, rep);
      if r != [] {
        ReplaceAllHead(r, pat, rep);
      }
      assert (Sep + x)[|Sep|..] == x;
    } else if |s| < |pat| {
    } else if pat <= s {
      var r := s[|pat|..];
      assert s == pat + r;
      CleanDrop(pat, r);
      ReplaceKeepsClean(r, pat, rep);
      CleanAppend(rep, ReplaceAll(r, pat, rep));
    } else {
      var r := s[1..];
      ReplaceKeepsClean(r, pat, rep);
      var x := ReplaceAll(r, pat, rep);
      assert ([s[0]] + x)[1..] == x;
    }
  }

  lemma CleanCutBefore(a: string, b: string)
    requires '~' !in a && CleanCuts(b) && (b == [] || b[0] != '\n')
    ensures CleanCuts(a + Sep + b)
  {
    CleanPlain(a);
    assert CleanCuts(Sep + b) by {
      assert (Sep + b)[|Sep|..] == b;
    }
    assert a + Sep + b == a + (Sep + b);
    CleanAppend(a, Sep + b);
  }

  /** With clean cuts, every piece after the first is empty or does not start with a newline. */
  lemma {:induction false} SplitCleanCuts(s: string)
    requires CleanCuts(s)
    ensures s != [] ==> Split(s, Sep)[0] == [] || Split(s, Sep)[0][0] == s[0]
    ensures forall k :: 1 <= k < |Split(s, Sep)| ==> Split(s, Sep)[k] == [] || Split(s, Sep)[k][0] != '\n'
    decreases |s|
  {
    if |s| < |Sep| {
    } else if Sep <= s {
      SplitCleanCuts(s[|Sep|..]);
    } else {
      SplitCleanCuts(s[1..]);
    }
  }

  // ---------------------------------------------------------------------------
  // xml(): the segments, the walk over them, and the output
  // ---------------------------------------------------------------------------

  /** `\w`: an ASCII letter, digit or underscore. */
  predicate IsWordChar(c: char) {
    ('a' <= c <= 'z') || ('A' <= c <= 'Z') || ('0' <= c <= '9') || c == '_'
  }

  /** `[\w:\-.,]`: a character of a tag name as `xml()` reads it. */
  predicate IsNameChar(c: char) {
    IsWordChar(c) || c == ':' || c == '-' || c == '.' || c == ','
  }

  /** The longest prefix of `s` made of tag-name characters. */
  function NameRun(s: string): string {
    if s != [] && IsNameChar(s[0]) then [s[0]] + NameRun(s[1..]) else []
  }

  /** `s.search(/<\w/) > -1`: somewhere a `<` is followed by a word character. */
  predicate HasOpenTag(s: string)
    decreases |s|
  {
    |s| >= 2 && ((s[0] == '<' && IsWordChar(s[1])) || HasOpenTag(s[1..]))
  }

  /** `s` contains `xmlns:` or `xmlns=`. */
  predicate HasXmlns(s: string) {
    Contains(s, "xmlns:") || Contains(s, "xmlns=")
  }

  /** `s` contains `-->` or `]>`, the end of a comment or of a CDATA section. */
  predicate EndsComment(s: string) {
    Contains(s, "-->") || Contains(s, "]>")
  }

  /**
   * The `<elm></elm>` test: `prev` starts with `<` and a word character,
   * `cur` with `</` and a word character, and the tag names agree. (The
   * match of `/^<[\w:\-.,]+/` on `prev` is a one-element array, which `==`
   * compares as its only string with the match of `/^<\/[\w:\-.,]+/` on
   * `cur` once its `/` is removed.)
   */
  predicate ClosesPrevious(prev: string, cur: string) {
    && |prev| >= 2 && prev[0] == '<' && IsWordChar(prev[1])
    && |cur| >= 3 && cur[0] == '<' && cur[1] == '/' && IsWordChar(cur[2])
    && NameRun(prev[1..]) == NameRun(cur[2..])
  }

  /** The segments `xml()` walks: gaps closed, then a cut before every tag and every namespace attribute. */
  function XmlSegments(text: string): seq<string> {
    var s := CloseTagGaps(text);
    var s1 := ReplaceAll(s, "><", ">~::~<");
    var s2 := ReplaceAll(s1, "xmlns:", "~::~xmlns:");
    var s3 := ReplaceAll(s2, "xmlns=", "~::~xmlns=");
    Split(s3, Sep)
  }

  /** The cut between two tags. */
  lemma CutBeforeTags(s: string)
    requires Marked(s)
    ensures Marked(ReplaceAll(s, "><", ">~::~<"))
    ensures ReplaceAll(ReplaceAll(s, "><", ">~::~<"), Sep, "") == ReplaceAll(s, Sep, "")
    ensures CleanCuts(s) ==> CleanCuts(ReplaceAll(s, "><", ">~::~<"))
  {
    if CleanCuts(s) {
      CleanPlain("<");
      assert ">~::~<" == ">" + Sep + "<";
      CleanCutBefore(">", "<");
      ReplaceKeepsClean(s, "><", ">~::~<");
    }
    UnmarkPlain("<");
    assert ">~::~<" == ">" + Sep + "<";
    ReplaceByCut(s, "><", ">", "<");
  }

  /** The cut before a prefixed namespace attribute. */
  lemma CutBeforeXmlnsPrefix(s: string)
    requires Marked(s)
    ensures Marked(ReplaceAll(s, "xmlns:", "~::~xmlns:"))
    ensures ReplaceAll(ReplaceAll(s, "xmlns:", "~::~xmlns:"), Sep, "") == ReplaceAll(s, Sep, "")
    ensures CleanCuts(s) ==> CleanCuts(ReplaceAll(s, "xmlns:", "~::~xmlns:"))
  {
    if CleanCuts(s) {
      CleanPlain("xmlns:");
      assert "~::~xmlns:" == [] + Sep + "xmlns:";
      CleanCutBefore([], "xmlns:");
      ReplaceKeepsClean(s, "xmlns:", "~::~xmlns:");
    }
    UnmarkPlain("xmlns:");
    assert "~::~xmlns:" == [] + Sep + "xmlns:";
    ReplaceByCut(s, "xmlns:", [], "xmlns:");
  }

  /** The cut before a default namespace attribute. */
  lemma CutBeforeXmlnsDefault(s: string)
    requires Marked(s)
    ensures Marked(ReplaceAll(s, "xmlns=", "~::~xmlns="))
    ensures ReplaceAll(ReplaceAll(s, "xmlns=", "~::~xmlns="), Sep, "") == ReplaceAll(s, Sep, "")
    ensures CleanCuts(s) ==> CleanCuts(ReplaceAll(s, "xmlns=", "~::~xmlns="))
  {
    if CleanCuts(s) {
      CleanPlain("xmlns=");
      assert "~::~xmlns=" == [] + Sep + "xmlns=";
      CleanCutBefore([], "xmlns=");
      ReplaceKeepsClean(s, "xmlns=", "~::~xmlns=");
    }
    UnmarkPlain("xmlns=");
    assert "~::~xmlns=" == [] + Sep + "xmlns=";
    ReplaceByCut(s, "xmlns=", [], "xmlns=");
  }

  /**
   * Put back together, `xml()`'s segments are the text up to whitespace as
   * long as the text has no `~` of its own.
   */
  lemma XmlSegmentsNonSpaces(text: string)
    requires '~' !in text
    ensures NonSpaces(Join(XmlSegments(text), "")) == NonSpaces(text)
  {
    var s := CloseTagGaps(text);
    CloseTagGapsLacks(text, '~');
    CloseTagGapsNonSpaces(text);
    UnmarkPlain(s);
    var s1 := ReplaceAll(s, "><", ">~::~<");
    CutBeforeTags(s);
    var s2 := ReplaceAll(s1, "xmlns:", "~::~xmlns:");
    CutBeforeXmlnsPrefix(s1);
    var s3 := ReplaceAll(s2, "xmlns=", "~::~xmlns=");
    CutBeforeXmlnsDefault(s2);
    ReplaceAllIsSplitJoin(s3, Sep, "");
  }

  /** The variables of `xml()`'s loop: the output so far, the depth and whether a comment is open. */
  datatype XmlState = XmlState(str: string, deep: int, inComment: bool)

  /** What one segment does: the indentation written before it, the new depth and the new comment flag. */
  datatype XmlAct = XmlAct(indent: string, deep: int, inComment: bool)

  /** The indentation a segment gets unless a comment is open. */
  function Margin(shift: seq<string>, inComment: bool, depth: int): string {
    if inComment then [] else Indent(shift, depth)
  }

  /** The branch of `xml()` for segment `seg`, with `prev` the segment before it, if any. */
  function XmlAction(shift: seq<string>, st: XmlState, prev: Option<string>, seg: string): XmlAct {
    if Contains(seg, "<!") then
      XmlAct(Indent(shift, st.deep), st.deep, !(EndsComment(seg) || Contains(seg, "!DOCTYPE")))
    else if EndsComment(seg) then
      XmlAct([], st.deep, false)
    else if prev.Some? && ClosesPrevious(prev.value, seg) then
      XmlAct([], if st.inComment then st.deep else st.deep - 1, st.inComment)
    else if HasOpenTag(seg) && !Contains(seg, "</") && !Contains(seg, "/>") then
      XmlAct(Margin(shift, st.inComment, st.deep), if st.inComment then st.deep else st.deep + 1, st.inComment)
    else if HasOpenTag(seg) && Contains(seg, "</") then
      XmlAct(Margin(shift, st.inComment, st.deep), st.deep, st.inComment)
    else if Contains(seg, "</") then
      XmlAct(Margin(shift, st.inComment, if HasXmlns(seg) then st.deep else st.deep - 1), st.deep - 1, st.inComment)
    else if Contains(seg, "/>") then
      XmlAct(Margin(shift, st.inComment, st.deep), if HasXmlns(seg) then st.deep - 1 else st.deep, st.inComment)
    else if Contains(seg, "<?") || HasXmlns(seg) then
      XmlAct(Indent(shift, st.deep), st.deep, st.inComment)
    else
      XmlAct([], st.deep, st.inComment)
  }

  /** One iteration of `xml()`'s loop: the segment is appended, and outside a comment the output is trimmed. */
  function XmlStep(shift: seq<string>, st: XmlState, prev: Option<string>, seg: string): (r: XmlState)
    ensures !r.inComment ==> r.str == [] || !IsSpace(r.str[|r.str| - 1])
  {
    var a := XmlAction(shift, st, prev, seg);
    var str := st.str + a.indent + seg;
    XmlState(if a.inComment then str else TrimEnd(str), a.deep, a.inComment)
  }

  /** The loop of `xml()` over `segs`. */
  function XmlWalk(shift: seq<string>, segs: seq<string>): XmlState
    decreases |segs|
  {
    if segs == [] then XmlState([], 0, false)
    else
      var n := |segs| - 1;
      XmlStep(shift, XmlWalk(shift, segs[..n]), if n > 0 then Some(segs[n - 1]) else None, segs[n])
  }

  /** `(str[0] === '\n') ? str.slice(1) : str`. */
  function DropFirstNewline(str: string): string {
    if str != [] && str[0] == '\n' then str[1..] else str
  }

  /** `xml(text)`. */
  function XmlOut(shift: seq<string>, text: string): string {
    DropFirstNewline(XmlWalk(shift, XmlSegments(text)).str)
  }

  /**
   * A segment that takes the `<elm>` branch: none of the branches before it
   * applies, it has a `<` followed by a word character, and neither `</`
   * nor `/>`.
   */
  predicate IsOpeningTag(prev: Option<string>, seg: string) {
    && !Contains(seg, "<!") && !EndsComment(seg)
    && !(prev.Some? && ClosesPrevious(prev.value, seg))
    && HasOpenTag(seg) && !Contains(seg, "</") && !Contains(seg, "/>")
  }

  /** A segment moves the depth by at most one, and it rises exactly at an opening tag outside a comment. */
  lemma XmlStepDepth(shift: seq<string>, st: XmlState, prev: Option<string>, seg: string)
    ensures st.deep - 1 <= XmlStep(shift, st, prev, seg).deep <= st.deep + 1
    ensures XmlStep(shift, st, prev, seg).deep == st.deep + 1 <==> IsOpeningTag(prev, seg) && !st.inComment
  {
  }

  /** `s` does not start with a newline that is followed by another newline or by nothing. */
  predicate NoBlankLead(s: string) {
    s == [] || s[0] != '\n' || (|s| >= 2 && s[1] != '\n')
  }

  /** A line of a blank-step table is a newline, followed by spaces only. */
  lemma IndentShape(shift: seq<string>, step: string, d: int)
    requires IsShiftTable(shift, step) && Blank(step) && 0 <= d <= MaxDeep
    ensures Indent(shift, d) != [] && Indent(shift, d)[0] == '\n'
    ensures |Indent(shift, d)| >= 2 ==> Indent(shift, d)[1] == ' '
    ensures NonSpaces(Indent(shift, d)) == []
  {
    ShiftLineShape(step, d);
    ShiftLineIsWhitespace(step, d);
  }

  /** `s` is what `Indent` can give: `undefined`, or a newline not followed by another newline. */
  predicate IndentLike(s: string) {
    s == "undefined" || (s != [] && s[0] == '\n' && (|s| >= 2 ==> s[1] == ' '))
  }

  lemma IndentIsIndentLike(shift: seq<string>, step: string, d: int)
    requires IsShiftTable(shift, step) && Blank(step)
    ensures IndentLike(Indent(shift, d))
  {
    if 0 <= d <= MaxDeep {
      IndentShape(shift, step, d);
    }
  }

  /** Every branch that writes an indentation has a non-empty segment, and writes a line of the table or `undefined`. */
  lemma XmlActionIndent(shift: seq<string>, step: string, st: XmlState, prev: Option<string>, seg: string)
    requires IsShiftTable(shift, step) && Blank(step)
    ensures XmlAction(shift, st, prev, seg).indent == [] ||
      (seg != [] && IndentLike(XmlAction(shift, st, prev, seg).indent))
  {
    IndentIsIndentLike(shift, step, st.deep);
    IndentIsIndentLike(shift, step, st.deep - 1);
  }

  lemma NoBlankLeadTrimEnd(x: string)
    requires NoBlankLead(x)
    ensures NoBlankLead(TrimEnd(x))
  {
    var t := TrimEnd(x);
    if |t| >= 2 {
      assert t[0] == x[0] && t[1] == x[1];
    }
  }

  lemma NoBlankLeadAppend(str: string, indent: string, seg: string)
    requires NoBlankLead(str)
    requires indent == [] || (seg != [] && IndentLike(indent))
    requires seg == [] || seg[0] != '\n'
    ensures NoBlankLead(str + indent + seg)
  {
    var x := str + indent + seg;
    if str != [] {
      assert x[0] == str[0];
      if str[0] == '\n' {
        assert x[1] == str[1];
      }
    } else if indent != [] {
      assert x == indent + seg;
      if |indent| == 1 {
        assert x[1] == seg[0];
      } else {
        assert x[1] == indent[1];
      }
    } else {
      assert x == seg;
    }
  }

  /** A segment that does not start with a newline keeps the output free of a blank first line. */
  lemma XmlStepNoBlankLead(shift: seq<string>, step: string, st: XmlState, prev: Option<string>, seg: string)
    requires IsShiftTable(shift, step) && Blank(step)
    requires NoBlankLead(st.str)
    requires seg == [] || seg[0] != '\n'
    ensures NoBlankLead(XmlStep(shift, st, prev, seg).str)
  {
    var a := XmlAction(shift, st, prev, seg);
    XmlActionIndent(shift, step, st, prev, seg);
    NoBlankLeadAppend(st.str, a.indent, seg);
    NoBlankLeadTrimEnd(st.str + a.indent + seg);
  }

  /** When no segment starts with a newline, the accumulated output never starts with a blank line. */
  lemma {:induction false} XmlWalkNoBlankLead(shift: seq<string>, step: string, segs: seq<string>)
    requires IsShiftTable(shift, step) && Blank(step)
    requires forall k :: 0 <= k < |segs| ==> segs[k] == [] || segs[k][0] != '\n'
    ensures NoBlankLead(XmlWalk(shift, segs).str)
    decreases |segs|
  {
    if segs != [] {
      var n := |segs| - 1;
      XmlWalkNoBlankLead(shift, step, segs[..n]);
      XmlStepNoBlankLead(shift, step, XmlWalk(shift, segs[..n]), if n > 0 then Some(segs[n - 1]) else None, segs[n]);
    }
  }

  /**
   * `xml()`'s result does not start with a newline as long as no segment
   * does (the text's first character is the only one that can start a
   * segment with a newline: every other segment starts at a `<` or an
   * `xmlns`, unless the text itself contains the separator).
   */
  lemma XmlNoLeadingNewline(shift: seq<string>, step: string, text: string)
    requires IsShiftTable(shift, step) && Blank(step)
    requires forall k :: 0 <= k < |XmlSegments(text)| ==> XmlSegments(text)[k] == [] || XmlSegments(text)[k][0] != '\n'
    ensures XmlOut(shift, text) == [] || XmlOut(shift, text)[0] != '\n'
  {
    XmlWalkNoBlankLead(shift, step, XmlSegments(text));
  }

  /** The text's own first character is the only one that can start a segment with a newline. */
  lemma XmlSegmentsLeads(text: string)
    requires '~' !in text
    ensures forall k :: 0 <= k < |XmlSegments(text)| ==> XmlSegments(text)[k] == [] || XmlSegments(text)[k][0] != '\n' || (k == 0 && text != [] && text[0] == '\n')
  {
    var s := CloseTagGaps(text);
    CloseTagGapsLacks(text, '~');
    UnmarkPlain(s);
    CleanPlain(s);
    var s1 := ReplaceAll(s, "><", ">~::~<");
    CutBeforeTags(s);
    var s2 := ReplaceAll(s1, "xmlns:", "~::~xmlns:");
    CutBeforeXmlnsPrefix(s1);
    var s3 := ReplaceAll(s2, "xmlns=", "~::~xmlns=");
    CutBeforeXmlnsDefault(s2);
    SplitCleanCuts(s3);
    if text != [] {
      CloseTagGapsHead(text);
      ReplaceAllHead(s, "><", ">~::~<");
      ReplaceAllHead(s1, "xmlns:", "~::~xmlns:");
      ReplaceAllHead(s2, "xmlns=", "~::~xmlns=");
    }
  }

  /** `xml()`'s result starts with a newline only if the text does, as long as the text has no `~`. */
  lemma XmlTextNoLeadingNewline(shift: seq<string>, step: string, text: string)
    requires IsShiftTable(shift, step) && Blank(step)
    requires '~' !in text && (text == [] || text[0] != '\n')
    ensures XmlOut(shift, text) == [] || XmlOut(shift, text)[0] != '\n'
  {
    XmlSegmentsLeads(text);
    XmlNoLeadingNewline(shift, step, text);
  }

  /** A text without `><`, without `xmlns` and without the separator is one segment. */
  lemma XmlSegmentsOfNewlineTag()
    ensures XmlSegments("\n<a>") == ["\n<a>"]
  {
    var text := "\n<a>";
    assert CloseTagGaps(text) == text;
    assert ReplaceAll(text, "><", ">~::~<") == text;
    assert ReplaceAll(text, "xmlns:", "~::~xmlns:") == text;
    assert ReplaceAll(text, "xmlns=", "~::~xmlns=") == text;
  }

  /** An opening tag outside a comment is written at the current depth and opens one level. */
  lemma XmlActionOpening(shift: seq<string>, st: XmlState, prev: Option<string>, seg: string)
    requires IsOpeningTag(prev, seg) && !st.inComment
    ensures XmlAction(shift, st, prev, seg) == XmlAct(Indent(shift, st.deep), st.deep + 1, false)
  {
  }

  lemma NewlineTagIsOpening()
    ensures IsOpeningTag(None, "\n<a>")
  {
    var seg := "\n<a>";
    assert seg[1..] == "<a>";
    assert HasOpenTag(seg[1..]);
  }

  /** A text that is one opening-tag segment is written behind `shift[0]`, whose newline is then dropped. */
  lemma XmlOutOfOpeningTag(shift: seq<string>, step: string, text: string)
    requires IsShiftTable(shift, step)
    requires XmlSegments(text) == [text] && IsOpeningTag(None, text) && !IsSpace(text[|text| - 1])
    ensures XmlOut(shift, text) == text
  {
    XmlWalkOfOpeningTag(shift, step, text);
    assert ("\n" + text)[1..] == text;
  }

  lemma XmlWalkOfOpeningTag(shift: seq<string>, step: string, text: string)
    requires IsShiftTable(shift, step)
    requires IsOpeningTag(None, text) && !IsSpace(text[|text| - 1])
    ensures XmlWalk(shift, [text]).str == "\n" + text
  {
    var st0 := XmlState([], 0, false);
    XmlActionOpening(shift, st0, None, text);
    var str := [] + "\n" + text;
    assert TrimEnd(str) == str;
    assert XmlWalk(shift, [text]) == XmlStep(shift, st0, None, text);
  }

  /** When the text itself starts with a newline and a tag, so does `xml()`'s result. */
  lemma XmlKeepsLeadingNewline(shift: seq<string>, step: string)
    requires IsShiftTable(shift, step)
    ensures XmlOut(shift, "\n<a>") == "\n<a>"
  {
    XmlSegmentsOfNewlineTag();
    NewlineTagIsOpening();
    XmlOutOfOpeningTag(shift, step, "\n<a>");
  }

  /** Every depth the walk passes through, after each prefix of `segs`, indexes the table. */
  predicate XmlDepthsInRange(shift: seq<string>, segs: seq<string>)
    decreases |segs|
  {
    && 0 <= XmlWalk(shift, segs).deep <= MaxDeep
    && (segs != [] ==> XmlDepthsInRange(shift, segs[..|segs| - 1]))
  }

  /** The indentation a segment gets is nothing, the line for the current depth, or the line for the new depth one lower. */
  lemma XmlActionIndentChoice(shift: seq<string>, st: XmlState, prev: Option<string>, seg: string)
    ensures var a := XmlAction(shift, st, prev, seg);
      a.indent == [] || a.indent == Indent(shift, st.deep) || (a.indent == Indent(shift, st.deep - 1) && a.deep == st.deep - 1)
  {
  }

  /** With the depth in the table before and after, the indentation a segment gets is whitespace. */
  lemma XmlIndentWhitespace(shift: seq<string>, step: string, d: int, a: XmlAct)
    requires IsShiftTable(shift, step) && Blank(step)
    requires 0 <= d <= MaxDeep && 0 <= a.deep <= MaxDeep
    requires a.indent == [] || a.indent == Indent(shift, d) || (a.indent == Indent(shift, d - 1) && a.deep == d - 1)
    ensures NonSpaces(a.indent) == []
  {
    if a.indent == Indent(shift, d) {
      IndentNonSpaces(shift, step, d);
    } else if a.indent != [] {
      IndentNonSpaces(shift, step, d - 1);
    }
  }

  lemma IndentNonSpaces(shift: seq<string>, step: string, d: int)
    requires IsShiftTable(shift, step) && Blank(step) && 0 <= d <= MaxDeep
    ensures NonSpaces(Indent(shift, d)) == []
  {
    ShiftLineIsWhitespace(step, d);
  }

  /** Appending an all-whitespace indentation and a segment, and trimming the end or not, adds the segment's characters. */
  lemma AppendSegmentNonSpaces(str: string, indent: string, seg: string, trim: bool)
    requires NonSpaces(indent) == []
    ensures NonSpaces(if trim then TrimEnd(str + indent + seg) else str + indent + seg) == NonSpaces(str) + NonSpaces(seg)
  {
    NonSpacesAppend(str, indent);
    NonSpacesAppend(str + indent, seg);
    if trim {
      NonSpacesTrimEnd(str + indent + seg);
    }
  }

  lemma XmlStepNonSpaces(shift: seq<string>, step: string, st: XmlState, prev: Option<string>, seg: string)
    requires IsShiftTable(shift, step) && Blank(step)
    requires 0 <= st.deep <= MaxDeep && 0 <= XmlStep(shift, st, prev, seg).deep <= MaxDeep
    ensures NonSpaces(XmlStep(shift, st, prev, seg).str) == NonSpaces(st.str) + NonSpaces(seg)
  {
    var a := XmlAction(shift, st, prev, seg);
    XmlActionIndentChoice(shift, st, prev, seg);
    XmlIndentWhitespace(shift, step, st.deep, a);
    AppendSegmentNonSpaces(st.str, a.indent, seg, !a.inComment);
  }

  /** One more segment at the end of the walk is one more step. */
  lemma XmlWalkSnoc(shift: seq<string>, segs: seq<string>, n: nat)
    requires n < |segs|
    ensures XmlWalk(shift, segs[..n + 1]) == XmlStep(shift, XmlWalk(shift, segs[..n]), if n > 0 then Some(segs[n - 1]) else None, segs[n])
  {
    assert segs[..n + 1][..n] == segs[..n];
  }

  /** The last segment of the walk adds its own non-whitespace characters. */
  lemma XmlWalkLastNonSpaces(shift: seq<string>, step: string, segs: seq<string>)
    requires IsShiftTable(shift, step) && Blank(step) && segs != []
    requires 0 <= XmlWalk(shift, segs[..|segs| - 1]).deep <= MaxDeep && 0 <= XmlWalk(shift, segs).deep <= MaxDeep
    ensures NonSpaces(XmlWalk(shift, segs).str) == NonSpaces(XmlWalk(shift, segs[..|segs| - 1]).str) + NonSpaces(segs[|segs| - 1])
  {
    var n := |segs| - 1;
    XmlStepNonSpaces(shift, step, XmlWalk(shift, segs[..n]), if n > 0 then Some(segs[n - 1]) else None, segs[n]);
  }

  /** Joining with "" keeps the non-whitespace characters of the last part after those of the others. */
  lemma NonSpacesJoinLast(segs: seq<string>)
    requires segs != []
    ensures NonSpaces(Join(segs, "")) == NonSpaces(Join(segs[..|segs| - 1], "")) + NonSpaces(segs[|segs| - 1])
  {
    JoinEmptyLast(segs);
    NonSpacesAppend(Join(segs[..|segs| - 1], ""), segs[|segs| - 1]);
  }

  /** While the depth stays in the table, the walk adds and removes whitespace only. */
  lemma {:induction false} XmlWalkNonSpaces(shift: seq<string>, step: string, segs: seq<string>)
    requires IsShiftTable(shift, step) && Blank(step)
    requires XmlDepthsInRange(shift, segs)
    ensures NonSpaces(XmlWalk(shift, segs).str) == NonSpaces(Join(segs, ""))
    decreases |segs|
  {
    if segs != [] {
      var init := segs[..|segs| - 1];
      XmlWalkNonSpaces(shift, step, init);
      XmlWalkLastNonSpaces(shift, step, segs);
      NonSpacesJoinLast(segs);
    }
  }

  lemma NonSpacesDropFirstNewline(str: string)
    ensures NonSpaces(DropFirstNewline(str)) == NonSpaces(str)
  {
  }

  /**
   * While the depth stays within the table, `xml()` changes whitespace only:
   * its result has the non-whitespace characters of the segments, in order,
   * and so those of the text when the text has no `~` of its own.
   */
  lemma XmlOutNonSpaces(shift: seq<string>, step: string, text: string)
    requires IsShiftTable(shift, step) && Blank(step)
    requires XmlDepthsInRange(shift, XmlSegments(text))
    ensures NonSpaces(XmlOut(shift, text)) == NonSpaces(Join(XmlSegments(text), ""))
    ensures '~' !in text ==> NonSpaces(XmlOut(shift, text)) == NonSpaces(text)
  {
    XmlWalkNonSpaces(shift, step, XmlSegments(text));
    NonSpacesDropFirstNewline(XmlWalk(shift, XmlSegments(text)).str);
    if '~' !in text {
      XmlSegmentsNonSpaces(text);
    }
  }

  // ---------------------------------------------------------------------------
  // css(): the segments, the depth of each, and the output
  // ---------------------------------------------------------------------------

  /** A separator, optional whitespace, and another separator at the start of `s`. */
  predicate SepPair(s: string) {
    Sep <= s && Sep <= TrimStart(s[|Sep|..])
  }

  /** `s.replace(/~::~\s*~::~/g, "~::~")`: such a run becomes one separator, and the scan goes on after it. */
  function MergeEmptyPieces(s: string): string
    decreases |s|
  {
    if s == [] then []
    else if SepPair(s) then Sep + MergeEmptyPieces(TrimStart(s[|Sep|..])[|Sep|..])
    else [s[0]] + MergeEmptyPieces(s[1..])
  }

  /** In a marked text, a separator is followed by `::` only as part of another separator. */
  lemma MarkedAfterColons(r: string)
    requires Marked(r) && |r| >= 3 && r[0] == ':' && r[1] == ':' && r[2] == '~'
    ensures |r| >= 6 && r[3] == ':'
  {
    assert Marked(r[1..]);
    assert r[1..][1..] == r[2..];
    assert Marked(r[2..]);
    assert Sep <= r[2..];
  }

  lemma MergePassesChar(c: char, t: string)
    requires c != '~'
    ensures MergeEmptyPieces([c] + t) == [c] + MergeEmptyPieces(t)
  {
    assert ([c] + t)[1..] == t;
    assert ([c] + t)[0] == c != Sep[0];
  }

  /** A separator that does not start an empty piece is passed over whole by `MergeEmptyPieces`. */
  lemma MergeSkipsSep(r: string)
    requires Marked(r) && !SepPair(Sep + r)
    ensures MergeEmptyPieces(Sep + r) == Sep + MergeEmptyPieces(r)
  {
    var x3 := ['~'] + r;
    var x2 := [':'] + x3;
    var x1 := [':'] + x2;
    assert !SepPair(x3) by {
      if Sep <= x3 {
        assert r[0] == x3[1] && r[1] == x3[2] && r[2] == x3[3];
        MarkedAfterColons(r);
        assert x3[|Sep|..] == r[3..];
        assert TrimStart(r[3..]) == r[3..];
      }
    }
    assert MergeEmptyPieces(x3) == ['~'] + MergeEmptyPieces(r) by {
      assert x3[1..] == r;
    }
    MergePassesChar(':', x3);
    MergePassesChar(':', x2);
    SepSpelled(r);
    assert (['~'] + x1)[1..] == x1;
    SepSpelled(MergeEmptyPieces(r));
  }

  lemma {:induction false} UnmarkTrimStart(w: string)
    requires Marked(w)
    ensures Marked(TrimStart(w))
    ensures NonSpaces(ReplaceAll(TrimStart(w), Sep, "")) == NonSpaces(ReplaceAll(w, Sep, ""))
    decreases |w|
  {
    if w != [] && IsSpace(w[0]) {
      assert w == [w[0]] + w[1..];
      UnmarkTrimStart(w[1..]);
      SkipChar(w[0], w[1..], Sep, "");
      NonSpacesCons(w[0], ReplaceAll(w[1..], Sep, ""));
    }
  }

  /** Merging the empty pieces removes separators and whitespace only. */
  lemma {:induction false} MergeUnmarkNonSpaces(s: string)
    requires Marked(s)
    ensures NonSpaces(ReplaceAll(MergeEmptyPieces(s), Sep, "")) == NonSpaces(ReplaceAll(s, Sep, ""))
    decreases |s|
  {
    if s == [] {
    } else if Sep <= s {
      var r := s[|Sep|..];
      assert s == Sep + r;
      UnmarkSep(r);
      if SepPair(s) {
        var t := TrimStart(r);
        UnmarkTrimStart(r);
        var u := t[|Sep|..];
        assert t == Sep + u;
        UnmarkSep(u);
        MergeUnmarkNonSpaces(u);
        UnmarkSep(MergeEmptyPieces(u));
      } else {
        MergeSkipsSep(r);
        MergeUnmarkNonSpaces(r);
        UnmarkSep(MergeEmptyPieces(r));
      }
    } else {
      var r := s[1..];
      assert s == [s[0]] + r;
      MergeUnmarkNonSpaces(r);
      SkipChar(s[0], MergeEmptyPieces(r), Sep, "");
      SkipChar(s[0], r, Sep, "");
      NonSpacesCons(s[0], ReplaceAll(MergeEmptyPieces(r), Sep, ""));
      NonSpacesCons(s[0], ReplaceAll(r, Sep, ""));
    }
  }

  /** The segments `css()` walks: whitespace collapsed, a cut after `{`, around `}`, after `;`, before a comment and after it. */
  function CssSegments(text: string): seq<string> {
    var s := CollapseSpaces(text);
    var s1 := ReplaceAll(s, "{", "{~::~");
    var s2 := ReplaceAll(s1, "}", "~::~}~::~");
    var s3 := ReplaceAll(s2, ";", ";~::~");
    var s4 := ReplaceAll(s3, "/*", "~::~/*");
    var s5 := ReplaceAll(s4, "*/", "*/~::~");
    Split(MergeEmptyPieces(s5), Sep)
  }

  /** The cut after a `{`. */
  lemma CutAfterOpenBrace(s: string)
    requires Marked(s)
    ensures Marked(ReplaceAll(s, "{", "{~::~"))
    ensures ReplaceAll(ReplaceAll(s, "{", "{~::~"), Sep, "") == ReplaceAll(s, Sep, "")
  {
    UnmarkPlain([]);
    assert "{~::~" == "{" + Sep + [];
    ReplaceByCut(s, "{", "{", []);
  }

  /** The cuts around a `}`. */
  lemma CutAroundCloseBrace(s: string)
    requires Marked(s)
    ensures Marked(ReplaceAll(s, "}", "~::~}~::~"))
    ensures ReplaceAll(ReplaceAll(s, "}", "~::~}~::~"), Sep, "") == ReplaceAll(s, Sep, "")
  {
    UnmarkPlain([]);
    CutMarked("}", []);
    assert "~::~}~::~" == [] + Sep + ("}" + Sep + []);
    ReplaceByCut(s, "}", [], ("}" + Sep + []));
  }

  /** The cut after a `;`. */
  lemma CutAfterSemicolon(s: string)
    requires Marked(s)
    ensures Marked(ReplaceAll(s, ";", ";~::~"))
    ensures ReplaceAll(ReplaceAll(s, ";", ";~::~"), Sep, "") == ReplaceAll(s, Sep, "")
  {
    UnmarkPlain([]);
    assert ";~::~" == ";" + Sep + [];
    ReplaceByCut(s, ";", ";", []);
  }

  /** The cut before a comment. */
  lemma CutBeforeComment(s: string)
    requires Marked(s)
    ensures Marked(ReplaceAll(s, "/*", "~::~/*"))
    ensures ReplaceAll(ReplaceAll(s, "/*", "~::~/*"), Sep, "") == ReplaceAll(s, Sep, "")
  {
    UnmarkPlain("/*");
    assert "~::~/*" == [] + Sep + "/*";
    ReplaceByCut(s, "/*", [], "/*");
  }

  /** The cut after a comment. */
  lemma CutAfterComment(s: string)
    requires Marked(s)
    ensures Marked(ReplaceAll(s, "*/", "*/~::~"))
    ensures ReplaceAll(ReplaceAll(s, "*/", "*/~::~"), Sep, "") == ReplaceAll(s, Sep, "")
  {
    UnmarkPlain([]);
    assert "*/~::~" == "*/" + Sep + [];
    ReplaceByCut(s, "*/", "*/", []);
  }

  /**
   * Put back together, `css()`'s segments are the text up to whitespace as
   * long as the text has no `~` of its own.
   */
  lemma CssSegmentsNonSpaces(text: string)
    requires '~' !in text
    ensures NonSpaces(Join(CssSegments(text), "")) == NonSpaces(text)
  {
    var s := CollapseSpaces(text);
    CollapseSpacesLacks(text, '~');
    CollapseSpacesSingleSpaced(text);
    UnmarkPlain(s);
    var s1 := ReplaceAll(s, "{", "{~::~");
    CutAfterOpenBrace(s);
    var s2 := ReplaceAll(s1, "}", "~::~}~::~");
    CutAroundCloseBrace(s1);
    var s3 := ReplaceAll(s2, ";", ";~::~");
    CutAfterSemicolon(s2);
    var s4 := ReplaceAll(s3, "/*", "~::~/*");
    CutBeforeComment(s3);
    var s5 := ReplaceAll(s4, "*/", "*/~::~");
    CutAfterComment(s4);
    MergeUnmarkNonSpaces(s5);
    ReplaceAllIsSplitJoin(MergeEmptyPieces(s5), Sep, "");
  }

  /** How a segment moves the depth: up after a `{`, down before a `}`, and not at all otherwise. */
  function Delta(seg: string): int {
    if Contains(seg, "{") then 1 else if Contains(seg, "}") then -1 else 0
  }

  /** The number of segments with a `{` minus the number of those with a `}` and no `{`. */
  function Balance(segs: seq<string>): int {
    if segs == [] then 0 else Delta(segs[0]) + Balance(segs[1..])
  }

  /** The depth segment `k` is written at: the balance before it, one less for a closing segment. */
  function CssLevel(segs: seq<string>, k: nat): int
    requires k < |segs|
  {
    Balance(segs[..k]) + (if Delta(segs[k]) < 0 then -1 else 0)
  }

  /** The first `k` segments, each behind the table line for its depth. */
  function CssLines(shift: seq<string>, segs: seq<string>, k: nat): string
    requires k <= |segs|
  {
    if k == 0 then [] else CssLines(shift, segs, k - 1) + Indent(shift, CssLevel(segs, k - 1)) + segs[k - 1]
  }

  /** `css(text)`: the laid-out segments with the leading newlines removed. */
  function CssOut(shift: seq<string>, text: string): (r: string)
    ensures r == [] || r[0] != '\n'
  {
    var segs := CssSegments(text);
    StripLeadingNewlines(CssLines(shift, segs, |segs|))
  }

  /** The balance of one more segment is the balance before it moved by that segment. */
  lemma {:induction false} BalanceSnoc(segs: seq<string>, k: nat)
    requires k < |segs|
    ensures Balance(segs[..k + 1]) == Balance(segs[..k]) + Delta(segs[k])
    decreases k
  {
    if k > 0 {
      BalanceSnoc(segs[1..], k - 1);
      assert segs[..k + 1][1..] == segs[1..][..k];
      assert segs[..k][1..] == segs[1..][..k - 1];
    }
  }

  /** A segment is written at the lower of the depths before and after it. */
  lemma CssLevelIsLower(segs: seq<string>, k: nat)
    requires k < |segs|
    ensures CssLevel(segs, k) == if Balance(segs[..k + 1]) < Balance(segs[..k]) then Balance(segs[..k + 1]) else Balance(segs[..k])
  {
    BalanceSnoc(segs, k);
  }

  /** Every segment's depth indexes the table. */
  predicate CssLevelsInRange(segs: seq<string>) {
    forall k :: 0 <= k < |segs| ==> 0 <= CssLevel(segs, k) <= MaxDeep
  }

  lemma NonSpacesJoinPrefix(segs: seq<string>, k: nat)
    requires k < |segs|
    ensures NonSpaces(Join(segs[..k + 1], "")) == NonSpaces(Join(segs[..k], "")) + NonSpaces(segs[k])
  {
    assert segs[..k + 1][..k] == segs[..k];
    NonSpacesJoinLast(segs[..k + 1]);
  }

  /** While the depths stay in the table, the first `k` laid-out segments hold their own non-whitespace characters only. */
  lemma {:induction false} CssLinesNonSpaces(shift: seq<string>, step: string, segs: seq<string>, k: nat)
    requires IsShiftTable(shift, step) && Blank(step)
    requires k <= |segs| && CssLevelsInRange(segs)
    ensures NonSpaces(CssLines(shift, segs, k)) == NonSpaces(Join(segs[..k], ""))
  {
    if k > 0 {
      CssLinesNonSpaces(shift, step, segs, k - 1);
      IndentNonSpaces(shift, step, CssLevel(segs, k - 1));
      AppendSegmentNonSpaces(CssLines(shift, segs, k - 1), Indent(shift, CssLevel(segs, k - 1)), segs[k - 1], false);
      NonSpacesJoinPrefix(segs, k - 1);
    }
  }

  /**
   * While the depths stay within the table, `css()` changes whitespace only:
   * its result has the non-whitespace characters of the segments, in order,
   * and so those of the text when the text has no `~` of its own.
   */
  lemma CssOutNonSpaces(shift: seq<string>, step: string, text: string)
    requires IsShiftTable(shift, step) && Blank(step)
    requires CssLevelsInRange(CssSegments(text))
    ensures NonSpaces(CssOut(shift, text)) == NonSpaces(Join(CssSegments(text), ""))
    ensures '~' !in text ==> NonSpaces(CssOut(shift, text)) == NonSpaces(text)
  {
    var segs := CssSegments(text);
    CssLinesNonSpaces(shift, step, segs, |segs|);
    assert segs[..|segs|] == segs;
    NonSpacesStripLeadingNewlines(CssLines(shift, segs, |segs|));
    if '~' !in text {
      CssSegmentsNonSpaces(text);
    }
  }

  // ---------------------------------------------------------------------------
  // sql(): the quote alternation, the subquery depth, and the output
  // ---------------------------------------------------------------------------

  /** `isSubquery(str, level)`: `level` moved by the lengths of `str` without its `(` and without its `)`. */
  function IsSubquery(s: string, level: int): int {
    level - (|ReplaceAll(s, "(", "")| - |ReplaceAll(s, ")", "")|)
  }

  /** `isSubquery` adds the number of `(` and subtracts the number of `)`. */
  lemma IsSubqueryCounts(s: string, level: int)
    ensures IsSubquery(s, level) == level + Count(s, '(') - Count(s, ')')
  {
    RemoveAllLength(s, '(');
    RemoveAllLength(s, ')');
  }

  /** The pieces `sql()` cuts the whitespace-collapsed text into: a cut before every `'`. */
  function QuotePieces(text: string): seq<string> {
    Split(ReplaceAll(CollapseSpaces(text), "'", "~::~'"), Sep)
  }

  /** The cut before a `'`. */
  lemma CutBeforeQuote(s: string)
    requires Marked(s)
    ensures Marked(ReplaceAll(s, "'", "~::~'"))
    ensures ReplaceAll(ReplaceAll(s, "'", "~::~'"), Sep, "") == ReplaceAll(s, Sep, "")
  {
    UnmarkPlain("'");
    assert "~::~'" == [] + Sep + "'";
    ReplaceByCut(s, "'", [], "'");
  }

  /**
   * Put back together, the quote pieces are the text up to whitespace as
   * long as the text has no `~` of its own.
   */
  lemma QuotePiecesNonSpaces(text: string)
    requires '~' !in text
    ensures NonSpaces(Join(QuotePieces(text), "")) == NonSpaces(text)
  {
    var s := CollapseSpaces(text);
    CollapseSpacesLacks(text, '~');
    CollapseSpacesSingleSpaced(text);
    UnmarkPlain(s);
    var s1 := ReplaceAll(s, "'", "~::~'");
    CutBeforeQuote(s);
    ReplaceAllIsSplitJoin(s1, Sep, "");
  }

  /**
   * The first loop of `sql()` over the pieces: a piece at an odd index is
   * kept whole, one at an even index is cut by `split` (`split_sql`).
   */
  function SqlSegments(split: (string, string) -> seq<string>, tab: string, pieces: seq<string>): seq<string>
    decreases |pieces|
  {
    if pieces == [] then []
    else
      var n := |pieces| - 1;
      SqlSegments(split, tab, pieces[..n]) + (if n % 2 == 1 then [pieces[n]] else split(pieces[n], tab))
  }

  /**
   * On the pieces at even indices, the ones the first loop cuts, `split`
   * adds and removes whitespace only (the separators it cuts at are not
   * counted).
   */
  predicate SplitKeepsNonSpaces(split: (string, string) -> seq<string>, tab: string, pieces: seq<string>) {
    forall k :: 0 <= k < |pieces| && k % 2 == 0 ==> NonSpaces(Join(split(pieces[k], tab), "")) == NonSpaces(pieces[k])
  }

  /** `sql()`'s subquery test, `\(\s*SELECT` once its optional outer whitespace is dropped: a `(`, optional whitespace, then `SELECT`. */
  predicate OpensSubquery(s: string)
    decreases |s|
  {
    s != [] && ((s[0] == '(' && "SELECT" <= TrimStart(s[1..])) || OpensSubquery(s[1..]))
  }

  /** The rewrite of a segment with `SELECT`: a line break and two tabs after every comma. */
  function SelectCommas(seg: string, tab: string): string {
    if Contains(seg, "SELECT") then ReplaceAll(seg, ",", ",\n" + tab + tab) else seg
  }

  /** The variables of `sql()`'s second loop: the output so far, the subquery depth and the parenthesis level. */
  datatype SqlState = SqlState(str: string, deep: int, level: int)

  /**
   * The layout part of an iteration of `sql()`'s second loop, for the
   * rewritten segment `cur` and the new level: a subquery goes one level
   * deeper, a quoted segment is appended as it is, any other segment goes
   * behind the line for the current depth; outside parentheses, either of
   * the last two leaves one subquery.
   */
  function SqlPlace(shift: seq<string>, str: string, deep: int, level: int, cur: string): SqlState {
    var leave := level < 1 && deep != 0;
    if OpensSubquery(cur) then SqlState(str + Indent(shift, deep + 1) + cur, deep + 1, level)
    else if Contains(cur, "'") then SqlState(str + cur, if leave then deep - 1 else deep, level)
    else SqlState(str + Indent(shift, deep) + cur, if leave then deep - 1 else deep, level)
  }

  /** One iteration of `sql()`'s second loop. */
  function SqlStep(shift: seq<string>, tab: string, st: SqlState, seg: string): SqlState {
    SqlPlace(shift, st.str, st.deep, IsSubquery(seg, st.level), SelectCommas(seg, tab))
  }

  /** The second loop of `sql()` over `segs`. */
  function SqlWalk(shift: seq<string>, tab: string, segs: seq<string>): SqlState
    decreases |segs|
  {
    if segs == [] then SqlState([], 0, 0)
    else SqlStep(shift, tab, SqlWalk(shift, tab, segs[..|segs| - 1]), segs[|segs| - 1])
  }

  /**
   * The text `sql()` has built before the semicolon rewrite: leading
   * newlines removed and newline runs squeezed, so it neither starts with a
   * newline nor holds an empty line.
   */
  function SqlLayout(shift: seq<string>, tab: string, split: (string, string) -> seq<string>, text: string): (r: string)
    ensures r == [] || r[0] != '\n'
    ensures forall i, j :: 0 <= i < |r| && j == i + 1 && j < |r| ==> !(r[i] == '\n' && r[j] == '\n')
  {
    SqueezeNewlines(StripLeadingNewlines(SqlWalk(shift, tab, SqlSegments(split, tab, QuotePieces(text))).str))
  }

  lemma SqlSegmentsSnoc(split: (string, string) -> seq<string>, tab: string, pieces: seq<string>, n: nat)
    requires n < |pieces|
    ensures SqlSegments(split, tab, pieces[..n + 1]) == SqlSegments(split, tab, pieces[..n]) + (if n % 2 == 1 then [pieces[n]] else split(pieces[n], tab))
  {
    assert pieces[..n + 1][..n] == pieces[..n];
  }

  lemma SqlWalkSnoc(shift: seq<string>, tab: string, segs: seq<string>, n: nat)
    requires n < |segs|
    ensures SqlWalk(shift, tab, segs[..n + 1]) == SqlStep(shift, tab, SqlWalk(shift, tab, segs[..n]), segs[n])
  {
    assert segs[..n + 1][..n] == segs[..n];
  }

  /** The parenthesis level after the walk is the number of `(` minus the number of `)` in the segments. */
  lemma {:induction false} SqlWalkLevel(shift: seq<string>, tab: string, segs: seq<string>)
    ensures SqlWalk(shift, tab, segs).level == Count(Join(segs, ""), '(') - Count(Join(segs, ""), ')')
    decreases |segs|
  {
    if segs != [] {
      var init, last := segs[..|segs| - 1], segs[|segs| - 1];
      SqlWalkLevel(shift, tab, init);
      IsSubqueryCounts(last, SqlWalk(shift, tab, init).level);
      JoinEmptyLast(segs);
      CountAppend(Join(init, ""), last, '(');
      CountAppend(Join(init, ""), last, ')');
    }
  }

  /** The number of segments that open a subquery once their commas are rewritten. */
  function Subqueries(tab: string, segs: seq<string>): nat
    decreases |segs|
  {
    if segs == [] then 0
    else Subqueries(tab, segs[..|segs| - 1]) + (if OpensSubquery(SelectCommas(segs[|segs| - 1], tab)) then 1 else 0)
  }

  /** The subquery depth never goes below zero and never exceeds the number of subqueries opened. */
  lemma {:induction false} SqlWalkDeep(shift: seq<string>, tab: string, segs: seq<string>)
    ensures 0 <= SqlWalk(shift, tab, segs).deep <= Subqueries(tab, segs)
    decreases |segs|
  {
    if segs != [] {
      SqlWalkDeep(shift, tab, segs[..|segs| - 1]);
    }
  }

  /** Every depth the walk passes through, after each prefix of `segs`, is within the table. */
  predicate SqlDepthsInRange(shift: seq<string>, tab: string, segs: seq<string>)
    decreases |segs|
  {
    && SqlWalk(shift, tab, segs).deep <= MaxDeep
    && (segs != [] ==> SqlDepthsInRange(shift, tab, segs[..|segs| - 1]))
  }

  /** With a blank tab, the comma rewrite inserts whitespace only. */
  lemma SelectCommasNonSpaces(seg: string, tab: string)
    requires Blank(tab)
    ensures NonSpaces(SelectCommas(seg, tab)) == NonSpaces(seg)
  {
    if Contains(seg, "SELECT") {
      var pad := "\n" + tab + tab;
      assert ",\n" + tab + tab == "," + pad;
      BlankIsWhitespace(tab);
      NonSpacesAppend("\n" + tab, tab);
      NonSpacesAppend("\n", tab);
      NonSpacesReplaceAllPadded(seg, ",", pad);
    }
  }

  lemma SqlStepNonSpaces(shift: seq<string>, step: string, st: SqlState, seg: string)
    requires IsShiftTable(shift, step) && Blank(step)
    requires 0 <= st.deep <= MaxDeep && SqlStep(shift, step, st, seg).deep <= MaxDeep
    ensures NonSpaces(SqlStep(shift, step, st, seg).str) == NonSpaces(st.str) + NonSpaces(seg)
  {
    var cur := SelectCommas(seg, step);
    SelectCommasNonSpaces(seg, step);
    if OpensSubquery(cur) {
      IndentNonSpaces(shift, step, st.deep + 1);
      AppendSegmentNonSpaces(st.str, Indent(shift, st.deep + 1), cur, false);
    } else if Contains(cur, "'") {
      NonSpacesAppend(st.str, cur);
    } else {
      IndentNonSpaces(shift, step, st.deep);
      AppendSegmentNonSpaces(st.str, Indent(shift, st.deep), cur, false);
    }
  }

  /** The last segment of the walk adds its own non-whitespace characters. */
  lemma SqlWalkLastNonSpaces(shift: seq<string>, step: string, segs: seq<string>)
    requires IsShiftTable(shift, step) && Blank(step) && segs != []
    requires 0 <= SqlWalk(shift, step, segs[..|segs| - 1]).deep <= MaxDeep && SqlWalk(shift, step, segs).deep <= MaxDeep
    ensures NonSpaces(SqlWalk(shift, step, segs).str) == NonSpaces(SqlWalk(shift, step, segs[..|segs| - 1]).str) + NonSpaces(segs[|segs| - 1])
  {
    SqlStepNonSpaces(shift, step, SqlWalk(shift, step, segs[..|segs| - 1]), segs[|segs| - 1]);
  }

  /** While the depth stays in the table, the walk adds whitespace only. */
  lemma {:induction false} SqlWalkNonSpaces(shift: seq<string>, step: string, segs: seq<string>)
    requires IsShiftTable(shift, step) && Blank(step)
    requires SqlDepthsInRange(shift, step, segs)
    ensures NonSpaces(SqlWalk(shift, step, segs).str) == NonSpaces(Join(segs, ""))
    decreases |segs|
  {
    if segs != [] {
      var init := segs[..|segs| - 1];
      SqlWalkNonSpaces(shift, step, init);
      SqlWalkDeep(shift, step, init);
      SqlWalkLastNonSpaces(shift, step, segs);
      NonSpacesJoinLast(segs);
    }
  }

  /** When `split` changes whitespace only on the pieces it cuts, so does the first loop. */
  lemma {:induction false} SqlSegmentsNonSpaces(split: (string, string) -> seq<string>, tab: string, pieces: seq<string>)
    requires SplitKeepsNonSpaces(split, tab, pieces)
    ensures NonSpaces(Join(SqlSegments(split, tab, pieces), "")) == NonSpaces(Join(pieces, ""))
    decreases |pieces|
  {
    if pieces != [] {
      var n := |pieces| - 1;
      var part := if n % 2 == 1 then [pieces[n]] else split(pieces[n], tab);
      SqlSegmentsNonSpaces(split, tab, pieces[..n]);
      JoinEmptyAppend(SqlSegments(split, tab, pieces[..n]), part);
      NonSpacesAppend(Join(SqlSegments(split, tab, pieces[..n]), ""), Join(part, ""));
      NonSpacesJoinLast(pieces);
    }
  }

  /**
   * While the depth stays within the table and `split` changes whitespace
   * only on the pieces of this text it cuts, `sql()` before its semicolon
   * rewrite has the non-whitespace characters of the quote pieces, in order,
   * and so those of the text when the text has no `~` of its own.
   */
  lemma SqlLayoutNonSpaces(shift: seq<string>, step: string, split: (string, string) -> seq<string>, text: string)
    requires IsShiftTable(shift, step) && Blank(step) && SplitKeepsNonSpaces(split, step, QuotePieces(text))
    requires SqlDepthsInRange(shift, step, SqlSegments(split, step, QuotePieces(text)))
    ensures NonSpaces(SqlLayout(shift, step, split, text)) == NonSpaces(Join(QuotePieces(text), ""))
    ensures '~' !in text ==> NonSpaces(SqlLayout(shift, step, split, text)) == NonSpaces(text)
  {
    if '~' !in text {
      QuotePiecesNonSpaces(text);
    }
    var segs := SqlSegments(split, step, QuotePieces(text));
    var str := SqlWalk(shift, step, segs).str;
    SqlWalkNonSpaces(shift, step, segs);
    SqlSegmentsNonSpaces(split, step, QuotePieces(text));
    NonSpacesStripLeadingNewlines(str);
    NonSpacesSqueezeNewlines(StripLeadingNewlines(str));
  }
}
