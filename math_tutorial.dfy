/** The math tutorial dialog: a table of LaTeX snippets in five tabs, each card previewing
    its snippet with the `{}` placeholders filled in and copying the snippet on a click. */
module MathTutorial {
  import opened Wrappers
  import opened Collections

  datatype SymbolCategory = Basic | Greek | Functions | Operators | Advanced

  /** The string each category is stored and looked up under. */
  function CategoryKey(c: SymbolCategory): string {
    match c
    case Basic => "basic"
    case Greek => "greek"
    case Functions => "functions"
    case Operators => "operators"
    case Advanced => "advanced"
  }

  lemma CategoryKeysDistinct(c: SymbolCategory, d: SymbolCategory)
    requires c != d
    ensures CategoryKey(c) != CategoryKey(d)
  {
    assert CategoryKey(c)[0] != CategoryKey(d)[0] || |CategoryKey(c)| != |CategoryKey(d)|;
  }

  /** A card of the table: the snippet to type, its caption and its tab. (The glyph the
      card shows is presentation and is not kept.) */
  datatype TutorialSymbol = TutorialSymbol(symbol: string, caption: string, category: SymbolCategory)

  const BasicSymbols: seq<TutorialSymbol> := [
    TutorialSymbol("\\frac{}{}", "Fraction", Basic),
    TutorialSymbol("^{}", "Superscript", Basic),
    TutorialSymbol("_{}", "Subscript", Basic),
    TutorialSymbol("\\sqrt{}", "Square Root", Basic),
    TutorialSymbol("\\sqrt[{}]{}", "Nth Root", Basic)
  ]

  const GreekSymbols: seq<TutorialSymbol> := [
    TutorialSymbol("\\alpha", "Alpha", Greek),
    TutorialSymbol("\\beta", "Beta", Greek),
    TutorialSymbol("\\gamma", "Gamma", Greek),
    TutorialSymbol("\\delta", "Delta", Greek),
    TutorialSymbol("\\pi", "Pi", Greek),
    TutorialSymbol("\\theta", "Theta", Greek),
    TutorialSymbol("\\lambda", "Lambda", Greek),
    TutorialSymbol("\\mu", "Mu", Greek),
    TutorialSymbol("\\sigma", "Sigma", Greek)
  ]

  const FunctionSymbols: seq<TutorialSymbol> := [
    TutorialSymbol("\\sin{}", "Sine", Functions),
    TutorialSymbol("\\cos{}", "Cosine", Functions),
    TutorialSymbol("\\tan{}", "Tangent", Functions),
    TutorialSymbol("\\log{}", "Logarithm", Functions),
    TutorialSymbol("\\ln{}", "Natural Log", Functions),
    TutorialSymbol("\\lim_{}", "Limit", Functions)
  ]

  const OperatorSymbols: seq<TutorialSymbol> := [
    TutorialSymbol("\\times", "Times", Operators),
    TutorialSymbol("\\div", "Division", Operators),
    TutorialSymbol("\\pm", "Plus/Minus", Operators),
    TutorialSymbol("\\leq", "Less Equal", Operators),
    TutorialSymbol("\\geq", "Greater Equal", Operators),
    TutorialSymbol("\\neq", "Not Equal", Operators),
    TutorialSymbol("\\approx", "Approximately", Operators)
  ]

  const AdvancedSymbols: seq<TutorialSymbol> := [
    TutorialSymbol("\\int_{}^{}", "Integral", Advanced),
    TutorialSymbol("\\sum_{}^{}", "Sum", Advanced),
    TutorialSymbol("\\infty", "Infinity", Advanced)
  ]

  /** The whole table, in its order. */
  const Symbols: seq<TutorialSymbol> :=
    BasicSymbols + GreekSymbols + FunctionSymbols + OperatorSymbols + AdvancedSymbols

  /** The filter test: the entry is filed under the key `category`. */
  function FiledUnder(category: string): TutorialSymbol -> bool {
    (s: TutorialSymbol) => CategoryKey(s.category) == category
  }

  /** `getSymbolsByCategory`: the entries filed under the key `category`, in table order;
      a key that names no category gives none. */
  function SymbolsByCategory(category: string): (r: seq<TutorialSymbol>)
    ensures forall i :: 0 <= i < |r| ==> r[i] in Symbols && CategoryKey(r[i].category) == category
    ensures forall i :: 0 <= i < |Symbols| && CategoryKey(Symbols[i].category) == category ==> Symbols[i] in r
  {
    Filter(Symbols, FiledUnder(category))
  }

  predicate AllIn(s: seq<TutorialSymbol>, c: SymbolCategory) {
    forall i :: 0 <= i < |s| ==> s[i].category == c
  }

  /** The entries of `group` under key `category`: all of it when it is that group's
      category, none otherwise. */
  lemma GroupFilter(group: seq<TutorialSymbol>, c: SymbolCategory, d: SymbolCategory)
    requires AllIn(group, c)
    ensures Filter(group, FiledUnder(CategoryKey(d)))
         == if c == d then group else []
  {
    var keep := FiledUnder(CategoryKey(d));
    if c == d {
      FilterKeepsAll(group, keep);
    } else {
      forall i | 0 <= i < |group|
        ensures !keep(group[i])
      {
        CategoryKeysDistinct(c, d);
      }
      FilterKeepsNone(group, keep);
    }
  }

  /** Every block holds only entries of its own category. */
  lemma BlocksAreUniform()
    ensures AllIn(BasicSymbols, Basic) && AllIn(GreekSymbols, Greek)
    ensures AllIn(FunctionSymbols, Functions) && AllIn(OperatorSymbols, Operators)
    ensures AllIn(AdvancedSymbols, Advanced)
  {
  }

  /** The block of category `d` among five blocks listed in category order. */
  function BlockOf(d: SymbolCategory, b1: seq<TutorialSymbol>, b2: seq<TutorialSymbol>, b3: seq<TutorialSymbol>,
                   b4: seq<TutorialSymbol>, b5: seq<TutorialSymbol>): seq<TutorialSymbol> {
    match d
    case Basic => b1
    case Greek => b2
    case Functions => b3
    case Operators => b4
    case Advanced => b5
  }

  /** Filtering five uniform blocks, one per category in order, by the key of `d` gives
      the block of `d`. */
  lemma FilterFiveBlocks(b1: seq<TutorialSymbol>, b2: seq<TutorialSymbol>, b3: seq<TutorialSymbol>,
                         b4: seq<TutorialSymbol>, b5: seq<TutorialSymbol>, d: SymbolCategory)
    requires AllIn(b1, Basic) && AllIn(b2, Greek) && AllIn(b3, Functions)
    requires AllIn(b4, Operators) && AllIn(b5, Advanced)
    ensures Filter(b1 + b2 + b3 + b4 + b5, FiledUnder(CategoryKey(d))) == BlockOf(d, b1, b2, b3, b4, b5)
  {
    var keep := FiledUnder(CategoryKey(d));
    FilterFive(b1, b2, b3, b4, b5, keep);
    GroupFilter(b1, Basic, d);
    GroupFilter(b2, Greek, d);
    GroupFilter(b3, Functions, d);
    GroupFilter(b4, Operators, d);
    GroupFilter(b5, Advanced, d);
    PickBlock(d, b1, b2, b3, b4, b5,
              Filter(b1, keep), Filter(b2, keep), Filter(b3, keep), Filter(b4, keep), Filter(b5, keep));
  }

  /** Keeping each block exactly when its category is `d` leaves the block of `d`. */
  lemma PickBlock(d: SymbolCategory, b1: seq<TutorialSymbol>, b2: seq<TutorialSymbol>, b3: seq<TutorialSymbol>,
                  b4: seq<TutorialSymbol>, b5: seq<TutorialSymbol>,
                  f1: seq<TutorialSymbol>, f2: seq<TutorialSymbol>, f3: seq<TutorialSymbol>,
                  f4: seq<TutorialSymbol>, f5: seq<TutorialSymbol>)
    requires f1 == (if d == Basic then b1 else []) && f2 == (if d == Greek then b2 else [])
    requires f3 == (if d == Functions then b3 else []) && f4 == (if d == Operators then b4 else [])
    requires f5 == (if d == Advanced then b5 else [])
    ensures f1 + f2 + f3 + f4 + f5 == BlockOf(d, b1, b2, b3, b4, b5)
  {
    var e: seq<TutorialSymbol> := [];
    match d
    case Basic => assert b1 + e + e + e + e == b1;
    case Greek => assert e + b2 + e + e + e == b2;
    case Functions => assert e + e + b3 + e + e == b3;
    case Operators => assert e + e + e + b4 + e == b4;
    case Advanced => assert e + e + e + e + b5 == b5;
  }

  /** Filtering five concatenated blocks filters each block. */
  lemma FilterFive<T>(b1: seq<T>, b2: seq<T>, b3: seq<T>, b4: seq<T>, b5: seq<T>, keep: T -> bool)
    ensures Filter(b1 + b2 + b3 + b4 + b5, keep)
         == Filter(b1, keep) + Filter(b2, keep) + Filter(b3, keep) + Filter(b4, keep) + Filter(b5, keep)
  {
    FilterConcat(b1, b2, keep);
    FilterConcat(b1 + b2, b3, keep);
    FilterConcat(b1 + b2 + b3, b4, keep);
    FilterConcat(b1 + b2 + b3 + b4, b5, keep);
  }

  /** Each tab lists exactly its own block of the table, in order. */
  lemma TabContents(c: SymbolCategory)
    ensures SymbolsByCategory(CategoryKey(c))
         == BlockOf(c, BasicSymbols, GreekSymbols, FunctionSymbols, OperatorSymbols, AdvancedSymbols)
  {
    BlocksAreUniform();
    FilterFiveBlocks(BasicSymbols, GreekSymbols, FunctionSymbols, OperatorSymbols, AdvancedSymbols, c);
  }

  /** The five tabs split the thirty entries as five, nine, six, seven and three, and
      together list the whole table in its order. */
  lemma TabsPartitionTable()
    ensures |Symbols| == 30
    ensures |SymbolsByCategory("basic")| == 5
    ensures |SymbolsByCategory("greek")| == 9
    ensures |SymbolsByCategory("functions")| == 6
    ensures |SymbolsByCategory("operators")| == 7
    ensures |SymbolsByCategory("advanced")| == 3
    ensures SymbolsByCategory("basic") + SymbolsByCategory("greek")
          + SymbolsByCategory("functions") + SymbolsByCategory("operators")
          + SymbolsByCategory("advanced") == Symbols
  {
    TabContents(Basic);
    TabContents(Greek);
    TabContents(Functions);
    TabContents(Operators);
    TabContents(Advanced);
  }

  /** A key outside the five gives an empty tab. */
  lemma UnknownCategoryIsEmpty(category: string)
    requires forall c: SymbolCategory :: CategoryKey(c) != category
    ensures SymbolsByCategory(category) == []
  {
    var keep := FiledUnder(category);
    FilterKeepsNone(Symbols, keep);
  }

  /** `{}` occurs in `s` at `i`. */
  predicate EmptyGroupAt(s: string, i: int) {
    0 <= i && i + 1 < |s| && s[i] == '{' && s[i + 1] == '}'
  }

  /** `s.includes('{}')`. */
  predicate HasEmptyGroup(s: string) {
    exists i :: 0 <= i < |s| && EmptyGroupAt(s, i)
  }

  /** `s.replace(/\{\}/g, 'x')`: every `{}`, scanning left to right, becomes `x`. */
  function FillPlaceholders(s: string): string
    decreases |s|
  {
    if |s| < 2 then s
    else if s[0] == '{' && s[1] == '}' then "x" + FillPlaceholders(s[2..])
    else [s[0]] + FillPlaceholders(s[1..])
  }

  /** The first character of the result is an `x` put in for a placeholder or the first
      character of the input. */
  lemma FillHead(s: string)
    ensures |FillPlaceholders(s)| == 0 <==> |s| == 0
    ensures |s| > 0 ==> FillPlaceholders(s)[0] == (if EmptyGroupAt(s, 0) then 'x' else s[0])
  {
  }

  /** After filling no `{}` is left: an `x` is neither brace, and a `{` that is copied was
      not followed by `}`. */
  lemma {:induction false} FillRemovesPlaceholders(s: string)
    ensures !HasEmptyGroup(FillPlaceholders(s))
    decreases |s|
  {
    if |s| < 2 {
    } else if s[0] == '{' && s[1] == '}' {
      FillRemovesPlaceholders(s[2..]);
      var r := FillPlaceholders(s[2..]);
      forall i | 0 <= i
        ensures !EmptyGroupAt("x" + r, i)
      {
        if i > 0 {
          assert !EmptyGroupAt(r, i - 1);
        }
      }
    } else {
      FillRemovesPlaceholders(s[1..]);
      FillHead(s[1..]);
      var r := FillPlaceholders(s[1..]);
      forall i | 0 <= i
        ensures !EmptyGroupAt([s[0]] + r, i)
      {
        if i > 0 {
          assert !EmptyGroupAt(r, i - 1);
        }
      }
    }
  }

  /** Text without `{}` is left as it is. */
  lemma {:induction false} FillWithoutPlaceholders(s: string)
    requires !HasEmptyGroup(s)
    ensures FillPlaceholders(s) == s
    decreases |s|
  {
    if |s| >= 2 {
      assert !EmptyGroupAt(s, 0);
      assert !HasEmptyGroup(s[1..]) by {
        forall i | 0 <= i
          ensures !EmptyGroupAt(s[1..], i)
        {
          assert !EmptyGroupAt(s, i + 1);
        }
      }
      FillWithoutPlaceholders(s[1..]);
    }
  }

  /** The math a card previews: the snippet with its placeholders filled when it has any,
      the snippet itself otherwise. The result never contains `{}`, and the `includes`
      test only skips a replacement that would change nothing. */
  function Preview(symbol: string): (r: string)
    ensures !HasEmptyGroup(r)
    ensures !HasEmptyGroup(symbol) ==> r == symbol
    ensures r == FillPlaceholders(symbol)
  {
    FillRemovesPlaceholders(symbol);
    if HasEmptyGroup(symbol) then FillPlaceholders(symbol)
    else
      FillWithoutPlaceholders(symbol);
      symbol
  }

  /** A prefix without `{` is copied by the filling as it is. */
  lemma {:induction false} FillAfterPlain(p: string, rest: string)
    requires forall i :: 0 <= i < |p| ==> p[i] != '{'
    ensures FillPlaceholders(p + rest) == p + FillPlaceholders(rest)
    decreases |p|
  {
    if p != [] {
      var s := p + rest;
      assert s[0] == p[0] && s[1..] == p[1..] + rest;
      FillAfterPlain(p[1..], rest);
      if |s| >= 2 {
        assert p[0] != '{';
        calc {
          FillPlaceholders(s);
          [p[0]] + FillPlaceholders(p[1..] + rest);
          [p[0]] + (p[1..] + FillPlaceholders(rest));
          ([p[0]] + p[1..]) + FillPlaceholders(rest);
          { assert [p[0]] + p[1..] == p; }
          p + FillPlaceholders(rest);
        }
      } else {
        assert rest == [] && s == p;
        assert FillPlaceholders(rest) == [];
      }
    } else {
      assert p + rest == rest;
    }
  }

  /** The braces themselves are the placeholder: the fraction card previews `\fracxx`
      (which KaTeX reads as x over x), not `\frac{x}{x}`. */
  lemma FractionPreview(symbol: string)
    requires symbol == "\\frac{}{}"
    ensures Preview(symbol) == "\\fracxx"
  {
    assert symbol == "\\frac" + "{}{}";
    assert FillPlaceholders("{}") == "x";
    assert FillPlaceholders("{}{}") == "x" + FillPlaceholders("{}");
    FillAfterPlain("\\frac", "{}{}");
  }

  /** `copiedSymbol` after a click on the card for `symbol`: set to that snippet when the
      clipboard write succeeds, left as it was when it fails. */
  function AfterCopy(copied: Option<string>, symbol: string, written: bool): (r: Option<string>)
    ensures written ==> r == Some(symbol)
    ensures !written ==> r == copied
  {
    if written then Some(symbol) else copied
  }

  /** A card shows the copied mark exactly when `copiedSymbol` is its snippet. */
  predicate IsCopied(copied: Option<string>, card: TutorialSymbol) {
    copied == Some(card.symbol)
  }

  /** After a successful copy the clicked card is marked, and so is any card with the same
      snippet and no other; a failed copy changes no mark. */
  lemma CopyMarksClickedCard(copied: Option<string>, clicked: TutorialSymbol, card: TutorialSymbol, written: bool)
    ensures written ==> (IsCopied(AfterCopy(copied, clicked.symbol, written), card) <==> card.symbol == clicked.symbol)
    ensures !written ==> (IsCopied(AfterCopy(copied, clicked.symbol, written), card) <==> IsCopied(copied, card))
  {
  }
}
