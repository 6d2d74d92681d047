/** The splitting of a text into literal and math segments that both math renderers
    perform: split on `$$…$$` (regex `/\$\$(.*?)\$\$/g`) when the text holds such a pair,
    otherwise on `$…$` (regex `/\$([^$]+)\$/g`); odd-indexed pieces of the split are
    math, even-indexed pieces are literal text. */
module MathSegments {
  import opened Wrappers
  import JsStrings

  datatype Seg = Text(s: string) | Inline(s: string) | Block(s: string)

  /** The two delimiter patterns: `$$…$$` (block) and `$…$` (inline). */
  datatype Delim = Double | Single

  /** The characters that a regex `.` does not match. */
  predicate IsLineTerminator(c: char) {
    c == '\n' || c == '\r' || c == '\U{2028}' || c == '\U{2029}'
  }

  predicate DollarPairAt(t: string, k: int) {
    0 <= k && k + 1 < |t| && t[k] == '$' && t[k + 1] == '$'
  }

  /** `e` is where the lazy `(.*?)\$\$` that starts at `j` stops: the first `$$` at or
      after `j`, with no line terminator before it. */
  predicate ClosesBlock(t: string, j: nat, e: nat) {
    && j <= e
    && DollarPairAt(t, e)
    && forall k :: j <= k < e ==> !IsLineTerminator(t[k]) && !DollarPairAt(t, k)
  }

  function BlockClose(t: string, j: nat): (r: Option<nat>)
    requires j <= |t|
    ensures r.Some? ==> ClosesBlock(t, j, r.value)
    ensures r.None? ==> forall e :: !ClosesBlock(t, j, e)
    decreases |t| - j
  {
    if DollarPairAt(t, j) then Some(j)
    else if j < |t| && !IsLineTerminator(t[j]) then
      var r := BlockClose(t, j + 1);
      assert forall e :: ClosesBlock(t, j, e) ==> e == j || ClosesBlock(t, j + 1, e);
      r
    else None
  }

  /** A `$…$` match at `q` that closes at `e`: one or more non-`$` characters between. */
  predicate InlineAt(t: string, q: nat, e: nat) {
    && q + 1 < e < |t|
    && t[q] == '$' && t[e] == '$'
    && forall k :: q < k < e ==> t[k] != '$'
  }

  /** A `$$…$$` match at `q` whose closing pair starts at `e`. */
  predicate BlockAt(t: string, q: nat, e: nat) {
    DollarPairAt(t, q) && ClosesBlock(t, q + 2, e)
  }

  /** The delimited form of a math piece. */
  function Wrap(d: Delim, content: string): string {
    match d
    case Double => "$$" + content + "$$"
    case Single => "$" + content + "$"
  }

  /** What a sticky match of the pattern finds at `q`: the captured group and the index
      just past the match. */
  datatype Hit = Hit(content: string, end: nat)

  function MatchAt(d: Delim, t: string, q: nat): (r: Option<Hit>)
    requires q <= |t|
    ensures r.Some? ==> q < r.value.end <= |t| && t[q..r.value.end] == Wrap(d, r.value.content)
  {
    match d
    case Double =>
      if DollarPairAt(t, q) then
        match BlockClose(t, q + 2)
        case Some(e) =>
          assert t[q..e + 2] == "$$" + t[q + 2..e] + "$$";
          Some(Hit(t[q + 2..e], e + 2))
        case None => None
      else None
    case Single =>
      if q < |t| && t[q] == '$' then
        match JsStrings.IndexOfFrom(t, '$', q + 1)
        case Some(e) =>
          if e > q + 1 then
            assert t[q..e + 1] == "$" + t[q + 1..e] + "$";
            Some(Hit(t[q + 1..e], e + 1))
          else None
        case None => None
      else None
  }

  /** The matcher agrees with the regex: `$$` followed by the lazy group up to the first
      `$$` on the same line; `$`, one or more non-`$` characters, `$`. */
  lemma MatchAtSpec(d: Delim, t: string, q: nat)
    requires q <= |t|
    ensures d == Double ==>
      (MatchAt(d, t, q).Some? <==> exists e :: BlockAt(t, q, e)) &&
      (MatchAt(d, t, q).Some? ==>
         var h := MatchAt(d, t, q).value;
         BlockAt(t, q, h.end - 2) && h.content == t[q + 2..h.end - 2])
    ensures d == Single ==>
      (MatchAt(d, t, q).Some? <==> exists e :: InlineAt(t, q, e)) &&
      (MatchAt(d, t, q).Some? ==>
         var h := MatchAt(d, t, q).value;
         InlineAt(t, q, h.end - 1) && h.content == t[q + 1..h.end - 1])
  {
    match d
    case Double =>
      if DollarPairAt(t, q) {
        var b := BlockClose(t, q + 2);
        if b.Some? {
          assert BlockAt(t, q, b.value);
        }
      }
    case Single =>
      if q < |t| && t[q] == '$' {
        var i := JsStrings.IndexOfFrom(t, '$', q + 1);
        JsStrings.IndexOfFromFirst(t, '$', q + 1);
        if i.Some? && i.value > q + 1 {
          assert InlineAt(t, q, i.value);
        } else if i.Some? {
          assert forall e :: !InlineAt(t, q, e);
        }
      }
  }

  /** Where the first match at or after `from` lies. */
  datatype Found = Found(start: nat, content: string, end: nat)

  function FirstMatch(d: Delim, t: string, from: nat): (r: Option<Found>)
    requires from <= |t|
    ensures r.Some? ==>
      && from <= r.value.start < r.value.end <= |t|
      && MatchAt(d, t, r.value.start) == Some(Hit(r.value.content, r.value.end))
    decreases |t| - from
  {
    if from == |t| then None
    else
      match MatchAt(d, t, from)
      case Some(h) => Some(Found(from, h.content, h.end))
      case None => FirstMatch(d, t, from + 1)
  }

  /** The search finds the leftmost match: nothing matches between `from` and the match
      it reports, nor anywhere after `from` when it reports none. */
  lemma {:induction false} FirstMatchFirst(d: Delim, t: string, from: nat)
    requires from <= |t|
    ensures var r := FirstMatch(d, t, from);
      forall k :: from <= k <= |t| && (r.None? || k < r.value.start) ==> MatchAt(d, t, k).None?
    decreases |t| - from
  {
    if from < |t| && MatchAt(d, t, from).None? {
      FirstMatchFirst(d, t, from + 1);
    }
  }

  /** `regex.test(t)`. */
  predicate Contains(d: Delim, t: string) {
    FirstMatch(d, t, 0).Some?
  }

  /** A text without two adjacent `$` holds no block pair. */
  lemma NoBlockWithoutDollarPair(t: string)
    requires forall k :: 0 <= k < |t| - 1 ==> !(t[k] == '$' && t[k + 1] == '$')
    ensures !Contains(Double, t)
  {
  }

  /** `t.split(regex)` for a regex with one capture group: the text before each match,
      then the captured group, and finally what follows the last match. */
  function Split(d: Delim, t: string): (parts: seq<string>)
    ensures |parts| % 2 == 1
    decreases |t|
  {
    match FirstMatch(d, t, 0)
    case None => [t]
    case Some(f) =>
      var rest := Split(d, t[f.end..]);
      OddPlusTwo(|rest|);
      [t[..f.start], f.content] + rest
  }

  lemma OddPlusTwo(n: nat)
    requires n % 2 == 1
    ensures (n + 2) % 2 == 1
  {
  }

  function MathSeg(d: Delim, s: string): Seg {
    match d
    case Double => Block(s)
    case Single => Inline(s)
  }

  /** `parts.map((part, index) => index % 2 === 1 ? <Math math={part}/> : part)`. */
  function Tag(d: Delim, parts: seq<string>): (segs: seq<Seg>)
    ensures |segs| == |parts|
  {
    seq(|parts|, i requires 0 <= i < |parts| => if i % 2 == 1 then MathSeg(d, parts[i]) else Text(parts[i]))
  }

  /** The segmentation: block pairs take precedence, inline pairs are looked for only in
      a text without a block pair, and a text with neither is one literal segment. */
  function Segment(t: string): seq<Seg> {
    if Contains(Double, t) then Tag(Double, Split(Double, t))
    else if Contains(Single, t) then Tag(Single, Split(Single, t))
    else [Text(t)]
  }

  /** The source text of a segment: literal text as is, math in its delimiters. */
  function Source(s: Seg): string {
    match s
    case Text(x) => x
    case Inline(x) => Wrap(Single, x)
    case Block(x) => Wrap(Double, x)
  }

  function Flatten(segs: seq<Seg>): string
    decreases |segs|
  {
    if segs == [] then "" else Source(segs[0]) + Flatten(segs[1..])
  }

  lemma {:induction false} FlattenConcat(a: seq<Seg>, b: seq<Seg>)
    ensures Flatten(a + b) == Flatten(a) + Flatten(b)
    decreases |a|
  {
    if a == [] {
      assert a + b == b;
    } else {
      assert (a + b)[1..] == a[1..] + b;
      FlattenConcat(a[1..], b);
    }
  }

  /** Tagging by index parity shifts by two places across a text/math pair. */
  lemma TagPair(d: Delim, pre: string, c: string, rest: seq<string>)
    ensures Tag(d, [pre, c] + rest) == [Text(pre), MathSeg(d, c)] + Tag(d, rest)
  {
    var lhs := Tag(d, [pre, c] + rest);
    var rhs := [Text(pre), MathSeg(d, c)] + Tag(d, rest);
    assert |lhs| == |rhs|;
    forall i | 0 <= i < |lhs| ensures lhs[i] == rhs[i] {
      if i >= 2 {
        assert ([pre, c] + rest)[i] == rest[i - 2];
        assert (i - 2) % 2 == i % 2;
      }
    }
  }

  lemma FlattenPair(d: Delim, pre: string, c: string)
    ensures Flatten([Text(pre), MathSeg(d, c)]) == pre + Wrap(d, c)
  {
    var w := Source(MathSeg(d, c));
    assert w == Wrap(d, c) by {
      match d
      case Double =>
      case Single =>
    }
    var segs := [Text(pre), MathSeg(d, c)];
    assert segs[1..] == [MathSeg(d, c)];
    assert [MathSeg(d, c)][1..] == [];
    assert Flatten([MathSeg(d, c)]) == w + "";
    assert w + "" == w;
    assert Flatten(segs) == pre + Flatten(segs[1..]);
  }

  lemma FlattenTagPair(d: Delim, pre: string, c: string, rest: seq<string>)
    ensures Flatten(Tag(d, [pre, c] + rest)) == pre + Wrap(d, c) + Flatten(Tag(d, rest))
  {
    TagPair(d, pre, c, rest);
    FlattenConcat([Text(pre), MathSeg(d, c)], Tag(d, rest));
    FlattenPair(d, pre, c);
  }

  /** The first match cuts the text into what precedes it, the delimited match and
      what follows it. */
  lemma FirstMatchCuts(d: Delim, t: string)
    requires Contains(d, t)
    ensures var f := FirstMatch(d, t, 0).value;
      t == t[..f.start] + Wrap(d, f.content) + t[f.end..]
  {
    var f := FirstMatch(d, t, 0).value;
    assert t[f.start..f.end] == Wrap(d, f.content) by {
      assert MatchAt(d, t, f.start) == Some(Hit(f.content, f.end));
    }
    JsStrings.SliceThree(t, f.start, f.end);
  }

  /** Round trip: re-wrapping every odd-indexed piece in its delimiters and
      concatenating all pieces gives back the split text. */
  lemma {:induction false} SplitRoundTrip(d: Delim, t: string)
    ensures Flatten(Tag(d, Split(d, t))) == t
    decreases |t|
  {
    if !Contains(d, t) {
      assert Tag(d, [t]) == [Text(t)];
      assert Flatten([Text(t)]) == t + "";
    } else {
      var f := FirstMatch(d, t, 0).value;
      var post := t[f.end..];
      SplitRoundTrip(d, post);
      FlattenTagPair(d, t[..f.start], f.content, Split(d, post));
      FirstMatchCuts(d, t);
    }
  }

  /** Segmenting loses nothing: the segments' sources concatenate to the text. */
  lemma SegmentRoundTrip(t: string)
    ensures Flatten(Segment(t)) == t
  {
    if Contains(Double, t) {
      SplitRoundTrip(Double, t);
    } else if Contains(Single, t) {
      SplitRoundTrip(Single, t);
    } else {
      assert Flatten([Text(t)]) == t + "";
    }
  }

  /** Which pattern the segmentation splits on: `$$…$$` whenever present, and then no
      inline segment appears; `$…$` otherwise; and a text with neither is left whole. */
  lemma SegmentKinds(t: string)
    ensures Contains(Double, t) ==> Segment(t) == Tag(Double, Split(Double, t))
    ensures Contains(Double, t) ==> forall i :: 0 <= i < |Segment(t)| ==> !Segment(t)[i].Inline?
    ensures !Contains(Double, t) && Contains(Single, t) ==>
      forall i :: 0 <= i < |Segment(t)| ==> !Segment(t)[i].Block?
    ensures !Contains(Double, t) && !Contains(Single, t) ==> Segment(t) == [Text(t)]
    ensures forall i :: 0 <= i < |Segment(t)| ==> (Segment(t)[i].Text? <==> i % 2 == 0)
  {
  }

  /** The literal text before the first match holds no match of that pattern: nothing
      that could have been math is left in it. */
  lemma {:induction false} TextBeforeFirstMatchIsPlain(d: Delim, t: string)
    requires Contains(d, t)
    ensures !Contains(d, t[..FirstMatch(d, t, 0).value.start])
  {
    var f := FirstMatch(d, t, 0).value;
    var p := t[..f.start];
    if Contains(d, p) {
      var g := FirstMatch(d, p, 0).value;
      MatchInPrefix(d, t, f.start, g.start);
      FirstMatchFirst(d, t, 0);
      assert false;
    }
  }

  /** A match found in a prefix of the text is also a match in the whole text. */
  lemma MatchInPrefix(d: Delim, t: string, n: nat, q: nat)
    requires n <= |t| && q <= n
    requires MatchAt(d, t[..n], q).Some?
    ensures MatchAt(d, t, q).Some?
  {
    var p := t[..n];
    MatchAtSpec(d, p, q);
    MatchAtSpec(d, t, q);
    match d
    case Double =>
      var e :| BlockAt(p, q, e);
      assert BlockAt(t, q, e);
    case Single =>
      var e :| InlineAt(p, q, e);
      assert InlineAt(t, q, e);
  }

  /** Positions that hold no `$` never start an inline match: the search passes them. */
  lemma {:induction false} InlineSearchSkips(t: string, from: nat, q: nat)
    requires from <= q <= |t|
    requires forall k :: from <= k < q ==> t[k] != '$'
    ensures FirstMatch(Single, t, from) == FirstMatch(Single, t, q)
    decreases q - from
  {
    if from < q {
      NoInlineAtPlain(t, from);
      SearchPassesNoMatch(Single, t, from);
      InlineSearchSkips(t, from + 1, q);
    }
  }

  /** No inline match starts at a character other than `$`. */
  lemma NoInlineAtPlain(t: string, q: nat)
    requires q < |t| && t[q] != '$'
    ensures MatchAt(Single, t, q).None?
  {
  }

  /** The search moves on from a position where nothing matches. */
  lemma SearchPassesNoMatch(d: Delim, t: string, from: nat)
    requires from < |t| && MatchAt(d, t, from).None?
    ensures FirstMatch(d, t, from) == FirstMatch(d, t, from + 1)
  {
  }

  /** An inline pair at `q` closing at `e` is what the matcher finds at `q`. */
  lemma InlineHit(t: string, q: nat, e: nat)
    requires InlineAt(t, q, e)
    ensures MatchAt(Single, t, q) == Some(Hit(t[q + 1..e], e + 1))
  {
    MatchAtSpec(Single, t, q);
  }

  /** A text without `$` is a single piece of the inline split. */
  lemma SplitWithoutDollar(t: string)
    requires '$' !in t
    ensures Split(Single, t) == [t]
  {
    InlineSearchSkips(t, 0, |t|);
  }

  /** Where the `$` signs of `pre $ c $ post` lie. */
  lemma DollarsOfPair(pre: string, c: string, post: string)
    requires '$' !in pre && '$' !in c && '$' !in post
    ensures var t := pre + "$" + c + "$" + post;
      forall k :: 0 <= k < |t| ==> (t[k] == '$' <==> k == |pre| || k == |pre| + 1 + |c|)
  {
    var t := pre + "$" + c + "$" + post;
    var q := |pre|;
    var e := q + 1 + |c|;
    forall k | 0 <= k < |t|
      ensures t[k] == '$' <==> k == q || k == e
    {
      if k < q {
        assert t[k] == pre[k];
      } else if q < k < e {
        assert t[k] == c[k - q - 1];
      } else if e < k {
        assert t[k] == post[k - e - 1];
      }
    }
  }

  /** A text holding exactly one `$…$` pair, with a non-empty content, splits into the
      text before it, the inline math, and the text after it. */
  lemma SingleInlineSegment(pre: string, c: string, post: string)
    requires '$' !in pre && '$' !in c && '$' !in post && c != []
    ensures Segment(pre + "$" + c + "$" + post) == [Text(pre), Inline(c), Text(post)]
  {
    var t := pre + "$" + c + "$" + post;
    var q := |pre|;
    var e := q + 1 + |c|;
    DollarsOfPair(pre, c, post);
    NoBlockWithoutDollarPair(t);
    InlineSearchSkips(t, 0, q);
    assert InlineAt(t, q, e);
    InlineHit(t, q, e);
    assert t[q + 1..e] == c && t[..q] == pre && t[e + 1..] == post;
    assert FirstMatch(Single, t, q) == Some(Found(q, c, e + 1));
    assert Contains(Single, t) && !Contains(Double, t);
    SplitWithoutDollar(post);
    assert Split(Single, t) == [pre, c] + [post];
    var segs := Tag(Single, [pre, c, post]);
    assert segs[0] == Text(pre) && segs[1] == Inline(c) && segs[2] == Text(post);
  }
}
