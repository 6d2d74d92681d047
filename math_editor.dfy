/** The math editor's preview: the shorthand preprocessor (three regex rewrites applied
    one after the other), the per-line rendering, the symbol palette and the splice that
    inserts a palette symbol at the text selection. */
module MathEditor {
  import opened Wrappers
  import JsStrings
  import opened MathSegments

  // ---------------------------------------------------------------------------------
  // Rewrite 1: /([^\\]|^)\/([^\/])/g, replaced by `${before}\frac{}{${after}}` unless
  // `before` ends in a command (`/\\[a-zA-Z]+$/`).

  predicate IsAsciiLetter(c: char) {
    ('a' <= c <= 'z') || ('A' <= c <= 'Z')
  }

  /** `before.match(/\\[a-zA-Z]+$/)`: a backslash followed by one or more letters ends
      the string. */
  predicate EndsWithCommand(before: string) {
    exists i :: 0 <= i < |before| - 1 && before[i] == '\\' &&
      forall k :: i < k < |before| ==> IsAsciiLetter(before[k])
  }

  /** The replacement callback: the match is kept when the guard fires, otherwise the
      captured prefix is followed by a fraction with an empty numerator. */
  function FractionFor(before: string, after: char, matched: string): string {
    if EndsWithCommand(before) then matched else before + "\\frac{}{" + [after] + "}"
  }

  /** The first alternative at the head of `s`: one non-backslash character, then `/`,
      then a character other than `/`. */
  predicate FractionAfterChar(s: string) {
    |s| >= 3 && s[0] != '\\' && s[1] == '/' && s[2] != '/'
  }

  /** The `^` alternative at the head of the line: `/`, then a character other than `/`. */
  predicate FractionAtLineStart(s: string, atStart: bool) {
    atStart && |s| >= 2 && s[0] == '/' && s[1] != '/'
  }

  /** The global replace scanning a suffix of the line; `atStart` says whether the
      suffix is the whole line, the only place where `^` matches. At each position the
      first alternative (one non-backslash character) is tried before `^`; a match
      resumes the scan just after it. */
  function FractionsFrom(s: string, atStart: bool): string
    decreases |s|
  {
    if FractionAfterChar(s) then
      FractionFor(s[..1], s[2], s[..3]) + FractionsFrom(s[3..], false)
    else if FractionAtLineStart(s, atStart) then
      FractionFor("", s[1], s[..2]) + FractionsFrom(s[2..], false)
    else if s == [] then []
    else s[..1] + FractionsFrom(s[1..], false)
  }

  function Fractions(s: string): string {
    FractionsFrom(s, true)
  }

  /** The command guard can never fire: the captured prefix is empty or a single
      non-backslash character, too short for a backslash and a letter. */
  lemma CommandGuardUnreachable(before: string)
    requires |before| <= 1 && forall k :: 0 <= k < |before| ==> before[k] != '\\'
    ensures !EndsWithCommand(before)
  {
  }

  /** One step of the scan where neither alternative matches: the head is copied. */
  lemma FractionsCopyStep(s: string, atStart: bool)
    requires s != [] && !FractionAfterChar(s) && !FractionAtLineStart(s, atStart)
    ensures FractionsFrom(s, atStart) == [s[0]] + FractionsFrom(s[1..], false)
  {
    assert s[..1] == [s[0]];
  }

  /** One step of the scan where the first alternative matches. */
  lemma FractionStep(s: string, atStart: bool)
    requires FractionAfterChar(s)
    ensures FractionsFrom(s, atStart) == [s[0]] + "\\frac{}{" + [s[2]] + "}" + FractionsFrom(s[3..], false)
  {
    assert s[..1] == [s[0]];
    CommandGuardUnreachable(s[..1]);
  }

  /** One step of the scan where the `^` alternative matches. */
  lemma LeadingFractionStep(s: string)
    requires FractionAtLineStart(s, true)
    ensures FractionsFrom(s, true) == "\\frac{}{" + [s[1]] + "}" + FractionsFrom(s[2..], false)
  {
    CommandGuardUnreachable("");
    assert "" + "\\frac{}{" + [s[1]] + "}" == "\\frac{}{" + [s[1]] + "}";
  }

  /** A `/` between a non-backslash character `x` and a non-`/` character `y` becomes
      `x\frac{}{y}`: `x` stays in front, the numerator is empty. */
  lemma FractionRewrite(x: char, y: char, rest: string, atStart: bool)
    requires x != '\\' && y != '/'
    ensures FractionsFrom([x, '/', y] + rest, atStart)
         == [x] + "\\frac{}{" + [y] + "}" + FractionsFrom(rest, false)
  {
    var s := [x, '/', y] + rest;
    assert s[0] == x && s[1] == '/' && s[2] == y && s[3..] == rest;
    FractionStep(s, atStart);
  }

  /** A `/` that opens the line, followed by a non-`/` character `y`, becomes
      `\frac{}{y}`. */
  lemma LeadingFractionRewrite(y: char, rest: string)
    requires y != '/'
    ensures Fractions(['/', y] + rest) == "\\frac{}{" + [y] + "}" + FractionsFrom(rest, false)
  {
    var s := ['/', y] + rest;
    assert s[0] == '/' && s[1] == y && s[2..] == rest;
    LeadingFractionStep(s);
  }

  /** Away from the start of the line the first character is never consumed: it is
      either copied or kept as the captured prefix. */
  lemma FractionsKeepsHead(s: string)
    requires s != []
    ensures FractionsFrom(s, false) != [] && FractionsFrom(s, false)[0] == s[0]
  {
    if FractionAfterChar(s) {
      FractionStep(s, false);
    } else {
      FractionsCopyStep(s, false);
    }
  }

  /** A `/` right after a backslash is left in place. */
  lemma SlashAfterBackslashKept(rest: string, atStart: bool)
    ensures var r := FractionsFrom(['\\', '/'] + rest, atStart);
      |r| >= 2 && r[..2] == "\\/"
  {
    var s := ['\\', '/'] + rest;
    assert s[0] == '\\' && s[1..] == ['/'] + rest;
    FractionsCopyStep(s, atStart);
    FractionsKeepsHead(s[1..]);
  }

  /** The last character of `a + b` is the last character of `b` when `b` is not empty. */
  lemma LastOfConcat(a: string, b: string)
    requires b != []
    ensures |a + b| >= 1 && (a + b)[|a + b| - 1] == b[|b| - 1]
  {
  }

  /** A `/` that ends the line is left in place. */
  lemma {:induction false} TrailingSlashKept(s: string, atStart: bool)
    requires s != [] && s[|s| - 1] == '/'
    ensures var r := FractionsFrom(s, atStart);
      |r| >= 1 && r[|r| - 1] == '/'
    decreases |s|
  {
    if FractionAfterChar(s) {
      FractionStep(s, atStart);
      TrailingSlashKept(s[3..], false);
      LastOfConcat([s[0]] + "\\frac{}{" + [s[2]] + "}", FractionsFrom(s[3..], false));
    } else if FractionAtLineStart(s, atStart) {
      LeadingFractionStep(s);
      TrailingSlashKept(s[2..], false);
      LastOfConcat("\\frac{}{" + [s[1]] + "}", FractionsFrom(s[2..], false));
    } else if |s| > 1 {
      FractionsCopyStep(s, atStart);
      TrailingSlashKept(s[1..], false);
      LastOfConcat([s[0]], FractionsFrom(s[1..], false));
    } else {
      FractionsCopyStep(s, atStart);
      assert s[1..] == [];
    }
  }

  /** When the `/` at a match position is followed by another `/`, no rewrite happens at
      that position: the character before is copied and the scan moves on. */
  lemma DoubleSlashNotRewrittenHere(x: char, rest: string)
    ensures FractionsFrom([x, '/', '/'] + rest, false) == [x] + FractionsFrom(['/', '/'] + rest, false)
  {
    var s := [x, '/', '/'] + rest;
    assert s[0] == x && s[2] == '/' && s[1..] == ['/', '/'] + rest;
    FractionsCopyStep(s, false);
  }

  /** A line whose only `/` sits between a non-backslash `x` and a non-`/` `y`. */
  lemma SingleFraction(x: char, y: char, rest: string)
    requires x != '\\' && y != '/' && '/' !in rest
    ensures Fractions([x, '/', y] + rest) == [x] + "\\frac{}{" + [y] + "}" + rest
  {
    FractionRewrite(x, y, rest, true);
    FractionsIdentity(rest, false);
  }

  /** A line without `/` passes the fraction rewrite unchanged. */
  lemma {:induction false} FractionsIdentity(s: string, atStart: bool)
    requires '/' !in s
    ensures FractionsFrom(s, atStart) == s
    decreases |s|
  {
    if s != [] {
      assert s[0] != '/' && (|s| >= 2 ==> s[1] != '/');
      FractionsCopyStep(s, atStart);
      FractionsIdentity(s[1..], false);
      assert s == [s[0]] + s[1..];
    }
  }

  // ---------------------------------------------------------------------------------
  // Rewrites 2 and 3: /\\_\(([^)]+)\)/g → '_{$1}' and /\\?\^\(([^)]+)\)/g → '^{$1}'.

  /** For a group whose content starts at `j`: the index of the closing `)`, provided the
      content `[^)]+` is not empty. */
  function GroupClose(s: string, j: nat): (r: Option<nat>)
    requires j <= |s|
    ensures r.Some? ==> j < r.value < |s| && s[r.value] == ')'
  {
    match JsStrings.IndexOfFrom(s, ')', j)
    case Some(e) => if e > j then Some(e) else None
    case None => None
  }

  /** The group found is free of `)`; no group is found only when the content is empty
      or never closed. */
  lemma GroupCloseSpec(s: string, j: nat)
    requires j <= |s|
    ensures GroupClose(s, j).Some? ==> ')' !in s[j..GroupClose(s, j).value]
    ensures GroupClose(s, j).None? ==> (j < |s| && s[j] == ')') || ')' !in s[j..]
  {
    JsStrings.IndexOfFromFirst(s, ')', j);
    match GroupClose(s, j)
    case Some(e) =>
      assert forall k :: 0 <= k < e - j ==> s[j..e][k] == s[j + k];
    case None =>
      assert forall k :: 0 <= k < |s| - j ==> s[j..][k] == s[j + k];
  }

  /** `\_(` opens `s` and its group is not empty. */
  predicate SubscriptAt(s: string) {
    |s| >= 3 && s[0] == '\\' && s[1] == '_' && s[2] == '(' && GroupClose(s, 3).Some?
  }

  /** `\_(c)` becomes `_{c}`; a bare `_(` is not touched. */
  function Subscripts(s: string): string
    decreases |s|
  {
    if SubscriptAt(s) then
      var e := GroupClose(s, 3).value;
      "_{" + s[3..e] + "}" + Subscripts(s[e + 1..])
    else if s == [] then []
    else s[..1] + Subscripts(s[1..])
  }

  /** `\^(` opens `s` and its group is not empty. */
  predicate EscapedSuperscriptAt(s: string) {
    |s| >= 3 && s[0] == '\\' && s[1] == '^' && s[2] == '(' && GroupClose(s, 3).Some?
  }

  /** `^(` opens `s` and its group is not empty. */
  predicate SuperscriptAt(s: string) {
    |s| >= 2 && s[0] == '^' && s[1] == '(' && GroupClose(s, 2).Some?
  }

  /** `^(c)` and `\^(c)` become `^{c}`: the optional backslash is tried first and is
      dropped with the match. */
  function Superscripts(s: string): string
    decreases |s|
  {
    if EscapedSuperscriptAt(s) then
      var e := GroupClose(s, 3).value;
      "^{" + s[3..e] + "}" + Superscripts(s[e + 1..])
    else if SuperscriptAt(s) then
      var e := GroupClose(s, 2).value;
      "^{" + s[2..e] + "}" + Superscripts(s[e + 1..])
    else if s == [] then []
    else s[..1] + Superscripts(s[1..])
  }

  /** `preprocessMath`: the three rewrites, left to right. */
  function Preprocess(s: string): string {
    Superscripts(Subscripts(Fractions(s)))
  }

  /** A non-empty group free of `)` closes at the `)` right after it. */
  lemma GroupCloseAt(s: string, j: nat, c: string)
    requires c != [] && ')' !in c
    requires j + |c| < |s| && s[j..j + |c|] == c && s[j + |c|] == ')'
    ensures GroupClose(s, j) == Some(j + |c|)
  {
    assert forall k :: j <= k < j + |c| ==> s[k] == c[k - j];
    JsStrings.IndexOfFromFirst(s, ')', j);
  }

  /** A group that closes at once is empty, and `[^)]+` does not match it. */
  lemma GroupEmptyAt(s: string, j: nat)
    requires j < |s| && s[j] == ')'
    ensures GroupClose(s, j).None?
  {
    assert JsStrings.IndexOfFrom(s, ')', j) == Some(j);
  }

  /** One step of the subscript scan where no group opens: the head is copied. */
  lemma SubscriptsCopyStep(s: string)
    requires s != [] && !SubscriptAt(s)
    ensures Subscripts(s) == [s[0]] + Subscripts(s[1..])
  {
    assert s[..1] == [s[0]];
  }

  /** One step of the superscript scan where no group opens: the head is copied. */
  lemma SuperscriptsCopyStep(s: string)
    requires s != [] && !EscapedSuperscriptAt(s) && !SuperscriptAt(s)
    ensures Superscripts(s) == [s[0]] + Superscripts(s[1..])
  {
    assert s[..1] == [s[0]];
  }

  /** A stretch without a backslash is copied by the subscript scan. */
  lemma {:induction false} SubscriptsCopyPlain(p: string, rest: string)
    requires '\\' !in p
    ensures Subscripts(p + rest) == p + Subscripts(rest)
    decreases |p|
  {
    if p == [] {
      assert p + rest == rest;
    } else {
      var s := p + rest;
      assert s[0] == p[0] && s[1..] == p[1..] + rest;
      SubscriptsCopyStep(s);
      SubscriptsCopyPlain(p[1..], rest);
      assert p == [p[0]] + p[1..];
    }
  }

  /** A stretch without a backslash or a `^` is copied by the superscript scan. */
  lemma {:induction false} SuperscriptsCopyPlain(p: string, rest: string)
    requires '\\' !in p && '^' !in p
    ensures Superscripts(p + rest) == p + Superscripts(rest)
    decreases |p|
  {
    if p == [] {
      assert p + rest == rest;
    } else {
      var s := p + rest;
      assert s[0] == p[0] && s[1..] == p[1..] + rest;
      SuperscriptsCopyStep(s);
      SuperscriptsCopyPlain(p[1..], rest);
      assert p == [p[0]] + p[1..];
    }
  }

  /** A group `\_(c)`, with `c` non-empty and free of `)`, becomes `_{c}`. */
  lemma SubscriptRewrite(c: string, rest: string)
    requires c != [] && ')' !in c
    ensures Subscripts("\\_(" + c + ")" + rest) == "_{" + c + "}" + Subscripts(rest)
  {
    var s := "\\_(" + c + ")" + rest;
    assert s[..3] == "\\_(" && s[3..3 + |c|] == c && s[3 + |c|] == ')';
    GroupCloseAt(s, 3, c);
    assert SubscriptAt(s);
    assert s[3 + |c| + 1..] == rest;
  }

  /** A group `\^(c)`, with `c` non-empty and free of `)`, becomes `^{c}`. */
  lemma EscapedSuperscriptRewrite(c: string, rest: string)
    requires c != [] && ')' !in c
    ensures Superscripts("\\^(" + c + ")" + rest) == "^{" + c + "}" + Superscripts(rest)
  {
    var s := "\\^(" + c + ")" + rest;
    assert s[..3] == "\\^(" && s[3..3 + |c|] == c && s[3 + |c|] == ')';
    GroupCloseAt(s, 3, c);
    assert EscapedSuperscriptAt(s);
    assert s[3 + |c| + 1..] == rest;
  }

  /** A group `^(c)`, with `c` non-empty and free of `)`, becomes `^{c}`. */
  lemma SuperscriptRewrite(c: string, rest: string)
    requires c != [] && ')' !in c
    ensures Superscripts("^(" + c + ")" + rest) == "^{" + c + "}" + Superscripts(rest)
  {
    var s := "^(" + c + ")" + rest;
    assert s[..2] == "^(" && s[2..2 + |c|] == c && s[2 + |c|] == ')';
    GroupCloseAt(s, 2, c);
    assert !EscapedSuperscriptAt(s) && SuperscriptAt(s);
    assert s[2 + |c| + 1..] == rest;
  }

  /** A bare `_(` is copied: only the escaped form `\_(` is rewritten. */
  lemma BareUnderscoreKept(s: string)
    requires |s| >= 2 && s[0] == '_' && s[1] == '('
    ensures Subscripts(s) == [s[0], s[1]] + Subscripts(s[2..])
  {
    SubscriptsCopyStep(s);
    var u := s[1..];
    assert u[0] == '(' && u[1..] == s[2..];
    SubscriptsCopyStep(u);
  }

  /** An empty group `\_()` is copied. */
  lemma EmptySubscriptKept(s: string)
    requires |s| >= 4 && s[0] == '\\' && s[1] == '_' && s[2] == '(' && s[3] == ')'
    ensures Subscripts(s) == [s[0], s[1], s[2], s[3]] + Subscripts(s[4..])
  {
    GroupEmptyAt(s, 3);
    SubscriptsCopyStep(s);
    var u := s[1..];
    assert u[0] == '_' && u[1..] == s[2..];
    SubscriptsCopyStep(u);
    var v := s[2..];
    assert v[0] == '(' && v[1..] == s[3..];
    SubscriptsCopyStep(v);
    var w := s[3..];
    assert w[0] == ')' && w[1..] == s[4..];
    SubscriptsCopyStep(w);
  }

  /** An empty group `^()` is copied. */
  lemma EmptySuperscriptKept(s: string)
    requires |s| >= 3 && s[0] == '^' && s[1] == '(' && s[2] == ')'
    ensures Superscripts(s) == [s[0], s[1], s[2]] + Superscripts(s[3..])
  {
    GroupEmptyAt(s, 2);
    SuperscriptsCopyStep(s);
    var u := s[1..];
    assert u[0] == '(' && u[1..] == s[2..];
    SuperscriptsCopyStep(u);
    var v := s[2..];
    assert v[0] == ')' && v[1..] == s[3..];
    SuperscriptsCopyStep(v);
  }

  lemma {:induction false} SubscriptsIdentity(s: string)
    requires '(' !in s
    ensures Subscripts(s) == s
    decreases |s|
  {
    if s != [] {
      assert !SubscriptAt(s);
      SubscriptsCopyStep(s);
      SubscriptsIdentity(s[1..]);
      assert s == [s[0]] + s[1..];
    }
  }

  lemma {:induction false} SuperscriptsIdentity(s: string)
    requires '(' !in s
    ensures Superscripts(s) == s
    decreases |s|
  {
    if s != [] {
      assert !EscapedSuperscriptAt(s) && !SuperscriptAt(s);
      SuperscriptsCopyStep(s);
      SuperscriptsIdentity(s[1..]);
      assert s == [s[0]] + s[1..];
    }
  }

  /** Text without `/` and `(` is not touched by the preprocessor. */
  lemma PreprocessIdentity(s: string)
    requires '/' !in s && '(' !in s
    ensures Preprocess(s) == s
  {
    FractionsIdentity(s, true);
    SubscriptsIdentity(s);
    SuperscriptsIdentity(s);
  }

  // ---------------------------------------------------------------------------------
  // renderMathContent

  /** The preview: blank text is returned as is; otherwise one render unit per line. */
  datatype Preview = Unchanged(text: string) | Lines(units: seq<seq<Seg>>)

  function RenderMathContent(text: string): Preview {
    if JsStrings.Trim(text) == [] then Unchanged(text)
    else
      var lines := JsStrings.SplitLines(text);
      Lines(seq(|lines|, i requires 0 <= i < |lines| => Segment(Preprocess(lines[i]))))
  }

  /** Blank (whitespace-only) text is returned unchanged; any other text gives one unit
      per `\n`-separated line, each the segmentation of the preprocessed line, and the
      units' sources reproduce the preprocessed lines. */
  lemma RenderStructure(text: string)
    ensures RenderMathContent(text).Unchanged? <==> JsStrings.IsBlank(text)
    ensures RenderMathContent(text).Unchanged? ==> RenderMathContent(text).text == text
    ensures RenderMathContent(text).Lines? ==>
      var lines := JsStrings.SplitLines(text);
      var units := RenderMathContent(text).units;
      && |units| == JsStrings.CountChar(text, '\n') + 1
      && JsStrings.JoinLines(lines) == text
      && forall i :: 0 <= i < |units| ==>
           units[i] == Segment(Preprocess(lines[i])) && Flatten(units[i]) == Preprocess(lines[i])
  {
    JsStrings.TrimEmptyIffBlank(text);
    if !JsStrings.IsBlank(text) {
      RenderLines(text);
    }
  }

  /** The units of a non-blank text: one per line, reproducing the preprocessed line. */
  lemma RenderLines(text: string)
    requires JsStrings.Trim(text) != []
    ensures RenderMathContent(text).Lines?
    ensures var lines := JsStrings.SplitLines(text);
      var units := RenderMathContent(text).units;
      && |units| == JsStrings.CountChar(text, '\n') + 1
      && JsStrings.JoinLines(lines) == text
      && forall i :: 0 <= i < |units| ==>
           units[i] == Segment(Preprocess(lines[i])) && Flatten(units[i]) == Preprocess(lines[i])
  {
    var lines := JsStrings.SplitLines(text);
    JsStrings.SplitLinesRoundTrip(text);
    UnitsReproduceLines(lines);
  }

  /** Each line's segments reproduce the preprocessed line. */
  lemma UnitsReproduceLines(lines: seq<string>)
    ensures forall i :: 0 <= i < |lines| ==> Flatten(Segment(Preprocess(lines[i]))) == Preprocess(lines[i])
  {
    forall i | 0 <= i < |lines|
      ensures Flatten(Segment(Preprocess(lines[i]))) == Preprocess(lines[i])
    {
      SegmentRoundTrip(Preprocess(lines[i]));
    }
  }

  /** A line whose only `/` is a fraction `x/y` and that holds no `(` loses nothing but
      gains the fraction command. */
  lemma PreprocessSingleFraction(x: char, y: char, rest: string)
    requires x != '\\' && x != '(' && y != '/' && y != '('
    requires '/' !in rest && '(' !in rest
    ensures Preprocess([x, '/', y] + rest) == [x] + "\\frac{}{" + [y] + "}" + rest
  {
    SingleFraction(x, y, rest);
    var p := [x] + "\\frac{}{" + [y] + "}" + rest;
    assert '(' !in p;
    SubscriptsIdentity(p);
    SuperscriptsIdentity(p);
  }

  /** A non-blank text without a line break renders as a single unit. */
  lemma RenderSingleLine(text: string)
    requires !JsStrings.IsBlank(text) && '\n' !in text
    ensures RenderMathContent(text) == Lines([Segment(Preprocess(text))])
  {
    JsStrings.TrimEmptyIffBlank(text);
    JsStrings.SplitSingleLine(text);
    var lines := JsStrings.SplitLines(text);
    var units := seq(|lines|, i requires 0 <= i < |lines| => Segment(Preprocess(lines[i])));
    assert units == [Segment(Preprocess(text))];
  }

  /** Characters that none of the three rewrites and neither split pattern looks at,
      and that do not break the line. */
  predicate PlainText(s: string) {
    '/' !in s && '(' !in s && '$' !in s && '\n' !in s
  }

  /** The fraction at the head of such a line is rewritten; the rest is left alone. */
  lemma PreprocessFractionThenInline(x: char, y: char, mid: string, c: string, post: string)
    requires x != '\\' && y != '/'
    requires PlainText([x]) && PlainText([y]) && PlainText(mid) && PlainText(c) && PlainText(post)
    ensures Preprocess([x, '/', y] + mid + "$" + c + "$" + post)
         == ([x] + "\\frac{}{" + [y] + "}" + mid) + "$" + c + "$" + post
  {
    var rest := mid + "$" + c + "$" + post;
    assert [x, '/', y] + mid + "$" + c + "$" + post == [x, '/', y] + rest;
    assert '/' !in rest && '(' !in rest;
    PreprocessSingleFraction(x, y, rest);
    assert [x] + "\\frac{}{" + [y] + "}" + rest == ([x] + "\\frac{}{" + [y] + "}" + mid) + "$" + c + "$" + post;
  }

  /** A non-blank line whose preprocessed form holds exactly one inline pair, with a
      non-empty content, renders as one unit of three segments. */
  lemma RenderOneInlinePair(text: string, pre: string, c: string, post: string)
    requires '\n' !in text && !JsStrings.IsBlank(text)
    requires Preprocess(text) == pre + "$" + c + "$" + post
    requires '$' !in pre && '$' !in c && '$' !in post && c != []
    ensures RenderMathContent(text) == Lines([[Text(pre), Inline(c), Text(post)]])
  {
    RenderSingleLine(text);
    SingleInlineSegment(pre, c, post);
  }

  /** A line made of plain text around a fraction at its start is one line and is not
      blank. */
  lemma FractionLineIsSingle(x: char, y: char, mid: string, c: string, post: string)
    requires !JsStrings.IsJsWhitespace(x)
    requires PlainText([x]) && PlainText([y]) && PlainText(mid) && PlainText(c) && PlainText(post)
    ensures var text := [x, '/', y] + mid + "$" + c + "$" + post;
      '\n' !in text && !JsStrings.IsBlank(text)
  {
    var text := [x, '/', y] + mid + "$" + c + "$" + post;
    assert text[0] == x;
  }

  /** A line that opens with a fraction `x/y` and holds one inline pair `$c$` further on,
      and otherwise only plain text, renders as a single unit of three segments: the text
      up to the pair with `x\frac{}{y}` in place of `x/y`, the inline math `c`, and the
      text after the pair. */
  lemma RenderFractionThenInline(x: char, y: char, mid: string, c: string, post: string)
    requires x != '\\' && !JsStrings.IsJsWhitespace(x) && y != '/'
    requires PlainText([x]) && PlainText([y]) && PlainText(mid) && PlainText(c) && PlainText(post)
    requires c != []
    ensures RenderMathContent([x, '/', y] + mid + "$" + c + "$" + post)
         == Lines([[Text([x] + "\\frac{}{" + [y] + "}" + mid), Inline(c), Text(post)]])
  {
    var text := [x, '/', y] + mid + "$" + c + "$" + post;
    var pre := [x] + "\\frac{}{" + [y] + "}" + mid;
    FractionLineIsSingle(x, y, mid, c, post);
    PreprocessFractionThenInline(x, y, mid, c, post);
    assert '$' !in pre;
    RenderOneInlinePair(text, pre, c, post);
  }

  // ---------------------------------------------------------------------------------
  // insertSymbol

  /** The textarea's selection, when the textarea is mounted. */
  datatype Selection = Selection(start: nat, end: nat)

  /** The value passed to `onChange` and the cursor position set afterwards. */
  datatype Insertion = Insertion(value: string, cursor: nat)

  function InsertSymbol(value: string, symbol: string, textarea: Option<Selection>): (r: Option<Insertion>)
    ensures r.None? <==> textarea.None?
    ensures r.Some? && textarea.value.start <= textarea.value.end <= |value| ==>
      var sel := textarea.value;
      && r.value.value == value[..sel.start] + symbol + value[sel.end..]
      && r.value.cursor == sel.start + |symbol|
      && r.value.value[..r.value.cursor] == value[..sel.start] + symbol
      && r.value.value[r.value.cursor..] == value[sel.end..]
  {
    match textarea
    case None => None
    case Some(sel) =>
      var v := JsStrings.Substring(value, 0, sel.start) + symbol + JsStrings.Substring(value, sel.end, |value|);
      Some(Insertion(v, sel.start + |symbol|))
  }

  // ---------------------------------------------------------------------------------
  // The palette; the display glyphs are left out.

  datatype PaletteSymbol = PaletteSymbol(symbol: string, caption: string)

  const Palette: seq<PaletteSymbol> := [
    PaletteSymbol("\\frac{}{}", "Fraction"),
    PaletteSymbol("\\int_{}^{}", "Integral"),
    PaletteSymbol("\\sum_{}^{}", "Sum"),
    PaletteSymbol("\\sqrt{}", "Square Root"),
    PaletteSymbol("\\sqrt[{}]{}", "Nth Root"),
    PaletteSymbol("^{}", "Superscript"),
    PaletteSymbol("_{}", "Subscript"),
    PaletteSymbol("\\lim_{}", "Limit"),
    PaletteSymbol("\\sin{}", "Sine"),
    PaletteSymbol("\\cos{}", "Cosine"),
    PaletteSymbol("\\tan{}", "Tangent"),
    PaletteSymbol("\\log{}", "Logarithm"),
    PaletteSymbol("\\ln{}", "Natural Log"),
    PaletteSymbol("\\alpha", "Alpha"),
    PaletteSymbol("\\beta", "Beta"),
    PaletteSymbol("\\gamma", "Gamma"),
    PaletteSymbol("\\delta", "Delta"),
    PaletteSymbol("\\pi", "Pi"),
    PaletteSymbol("\\theta", "Theta"),
    PaletteSymbol("\\lambda", "Lambda"),
    PaletteSymbol("\\mu", "Mu"),
    PaletteSymbol("\\sigma", "Sigma"),
    PaletteSymbol("\\infty", "Infinity"),
    PaletteSymbol("\\pm", "Plus/Minus"),
    PaletteSymbol("\\times", "Times"),
    PaletteSymbol("\\div", "Division"),
    PaletteSymbol("\\leq", "Less Equal"),
    PaletteSymbol("\\geq", "Greater Equal"),
    PaletteSymbol("\\neq", "Not Equal"),
    PaletteSymbol("\\approx", "Approximately")
  ]
}
