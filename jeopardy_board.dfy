/** The game board: one column per category, each column's questions ordered by value
    (a stable sort), every question a button that is disabled and struck through once
    its id is among the answered ones. */
module JeopardyBoard {
  import opened Wrappers
  import opened JeopardyTypes
  import opened Collections

  // ---------------------------------------------------------------------------------
  // Ordering by value: `questions.sort((a, b) => a.value - b.value)`, which is stable.

  predicate SortedByValue(s: seq<Question>) {
    forall i, j :: 0 <= i < j < |s| ==> s[i].value <= s[j].value
  }

  /** The questions of one value, in their order; a stable sort keeps each of these. */
  function OfValue(s: seq<Question>, v: int): seq<Question>
    decreases |s|
  {
    if s == [] then [] else (if s[0].value == v then [s[0]] else []) + OfValue(s[1..], v)
  }

  /** Two sequences hold the same questions of every value, in the same order. */
  ghost predicate SameValues(a: seq<Question>, b: seq<Question>) {
    forall v :: OfValue(a, v) == OfValue(b, v)
  }

  lemma {:induction false} OfValueConcat(a: seq<Question>, b: seq<Question>, v: int)
    ensures OfValue(a + b, v) == OfValue(a, v) + OfValue(b, v)
    decreases |a|
  {
    if a == [] {
      assert a + b == b;
    } else {
      var head := if a[0].value == v then [a[0]] else [];
      calc {
        OfValue(a + b, v);
        == { assert (a + b)[0] == a[0] && (a + b)[1..] == a[1..] + b; }
        head + OfValue(a[1..] + b, v);
        == { OfValueConcat(a[1..], b, v); }
        head + (OfValue(a[1..], v) + OfValue(b, v));
        ==
        (head + OfValue(a[1..], v)) + OfValue(b, v);
      }
    }
  }

  lemma OfValueCons(q: Question, s: seq<Question>, v: int)
    ensures OfValue([q] + s, v) == (if q.value == v then [q] else []) + OfValue(s, v)
  {
    assert ([q] + s)[1..] == s;
  }

  /** No question of a sorted sequence has a value below its first one. */
  lemma {:induction false} OfValueBelowFirst(s: seq<Question>, v: int)
    requires s != [] && SortedByValue(s) && v < s[0].value
    ensures OfValue(s, v) == []
    decreases |s|
  {
    if |s| > 1 {
      OfValueBelowFirst(s[1..], v);
    }
  }

  lemma HasOwnValue(s: seq<Question>)
    ensures s != [] ==> OfValue(s, s[0].value) != []
  {
  }

  /** Places `q` before the first question of equal or higher value. */
  function Insert(q: Question, s: seq<Question>): (r: seq<Question>)
    ensures |r| == |s| + 1
    decreases |s|
  {
    if s == [] || q.value <= s[0].value then [q] + s
    else [s[0]] + Insert(q, s[1..])
  }

  /** Inserting adds exactly one element, `q`. */
  lemma {:induction false} InsertCounts(q: Question, s: seq<Question>)
    ensures multiset(Insert(q, s)) == multiset(s) + multiset{q}
    decreases |s|
  {
    if !(s == [] || q.value <= s[0].value) {
      InsertCounts(q, s[1..]);
      assert s == [s[0]] + s[1..];
    }
  }

  /** Inserting a question no lower than a bound into a sequence no lower than it
      gives a sequence no lower than it. */
  lemma {:induction false} InsertAbove(q: Question, s: seq<Question>, lo: int)
    requires lo <= q.value && forall i :: 0 <= i < |s| ==> lo <= s[i].value
    ensures forall i :: 0 <= i < |Insert(q, s)| ==> lo <= Insert(q, s)[i].value
    decreases |s|
  {
    if !(s == [] || q.value <= s[0].value) {
      InsertAbove(q, s[1..], lo);
    }
  }

  /** Inserting into a sorted sequence keeps it sorted. */
  lemma {:induction false} InsertSorted(q: Question, s: seq<Question>)
    requires SortedByValue(s)
    ensures SortedByValue(Insert(q, s))
    decreases |s|
  {
    if s == [] || q.value <= s[0].value {
      assert forall j :: 0 <= j < |s| ==> q.value <= s[j].value;
    } else {
      InsertSorted(q, s[1..]);
      InsertAbove(q, s[1..], s[0].value);
    }
  }

  /** Inserting puts `q` ahead of the questions of its value and keeps theirs in order. */
  lemma {:induction false} InsertValues(q: Question, s: seq<Question>, v: int)
    ensures OfValue(Insert(q, s), v) == (if q.value == v then [q] else []) + OfValue(s, v)
    decreases |s|
  {
    if s == [] || q.value <= s[0].value {
      OfValueCons(q, s, v);
    } else {
      InsertValues(q, s[1..], v);
      OfValueCons(s[0], Insert(q, s[1..]), v);
    }
  }

  /** The stable sort by value, as a specification: insertion of each question, from
      the last to the first, into the sorted rest. */
  function SortByValue(s: seq<Question>): (r: seq<Question>)
    ensures |r| == |s|
    decreases |s|
  {
    if s == [] then [] else Insert(s[0], SortByValue(s[1..]))
  }

  /** The sort's result is ordered by value, a permutation of its input, and stable: it
      keeps the questions of each value in their order. */
  lemma {:induction false} SortByValueSpec(s: seq<Question>)
    ensures SortedByValue(SortByValue(s))
    ensures multiset(SortByValue(s)) == multiset(s)
    ensures SameValues(SortByValue(s), s)
    decreases |s|
  {
    if s != [] {
      var rest := SortByValue(s[1..]);
      SortByValueSpec(s[1..]);
      InsertSorted(s[0], rest);
      InsertCounts(s[0], rest);
      assert s == [s[0]] + s[1..];
      forall v
        ensures OfValue(SortByValue(s), v) == OfValue(s, v)
      {
        InsertValues(s[0], rest, v);
      }
    }
  }

  /** The lowest value of two sorted sequences that agree on every value is the same. */
  lemma LowestFirst(a: seq<Question>, b: seq<Question>)
    requires a != [] && b != [] && SortedByValue(a) && SortedByValue(b)
    requires SameValues(a, b)
    ensures a[0].value <= b[0].value
  {
    if b[0].value < a[0].value {
      OfValueBelowFirst(a, b[0].value);
    }
  }

  /** Two sorted sequences that agree on every value start with the same question. */
  lemma SameHead(a: seq<Question>, b: seq<Question>)
    requires a != [] && b != [] && SortedByValue(a) && SortedByValue(b)
    requires SameValues(a, b)
    ensures a[0] == b[0]
  {
    LowestFirst(a, b);
    LowestFirst(b, a);
    var v := a[0].value;
    assert OfValue(a, v) == OfValue(b, v);
    assert OfValue(a, v)[0] == a[0] && OfValue(b, v)[0] == b[0];
  }

  /** The questions of one value after the head are those of the whole, less the head
      when it has that value. */
  lemma OfValueTail(a: seq<Question>, w: int)
    requires a != []
    ensures OfValue(a[1..], w) == if a[0].value == w then OfValue(a, w)[1..] else OfValue(a, w)
  {
    OfValueCons(a[0], a[1..], w);
    assert a == [a[0]] + a[1..];
  }

  /** Two sequences with the same head that agree on every value still agree once the
      head is removed. */
  lemma SameTails(a: seq<Question>, b: seq<Question>)
    requires a != [] && b != [] && a[0] == b[0] && SameValues(a, b)
    ensures SameValues(a[1..], b[1..])
  {
    forall w
      ensures OfValue(a[1..], w) == OfValue(b[1..], w)
    {
      OfValueTail(a, w);
      OfValueTail(b, w);
    }
  }

  lemma SortedTail(a: seq<Question>)
    requires a != [] && SortedByValue(a)
    ensures SortedByValue(a[1..])
  {
  }

  /** A sorted sequence is fixed by the questions of each value: two sorted sequences
      that agree on every value agree everywhere. Hence the stable sort is unique. */
  lemma {:induction false} SortedUnique(a: seq<Question>, b: seq<Question>)
    requires SortedByValue(a) && SortedByValue(b)
    requires SameValues(a, b)
    ensures a == b
    decreases |a|
  {
    HasOwnValue(a);
    HasOwnValue(b);
    if a != [] && b != [] {
      SameHead(a, b);
      SameTails(a, b);
      SortedTail(a);
      SortedTail(b);
      SortedUnique(a[1..], b[1..]);
      assert a == [a[0]] + a[1..] && b == [b[0]] + b[1..];
    }
  }

  /** Sorting a sequence that is already ordered by value changes nothing. */
  lemma SortSortedIsIdentity(s: seq<Question>)
    requires SortedByValue(s)
    ensures SortByValue(s) == s
  {
    SortByValueSpec(s);
    SortedUnique(SortByValue(s), s);
  }

  /** Two questions of different values: at most one of them has a given value, so
      their order does not show in that value's questions. */
  lemma PairValues(x: Question, y: Question, v: int)
    requires x.value != y.value
    ensures OfValue([x, y], v) == OfValue([y, x], v)
  {
    assert [x, y][1..] == [y] && [y, x][1..] == [x];
    assert [x][1..] == [] && [y][1..] == [];
  }

  /** Exchanging two neighbours of different values inside a sequence keeps that value's
      questions. */
  lemma SwapPairValues(pre: seq<Question>, x: Question, y: Question, post: seq<Question>, v: int)
    requires x.value != y.value
    ensures OfValue(pre + [x, y] + post, v) == OfValue(pre + [y, x] + post, v)
  {
    OfValueConcat(pre + [x, y], post, v);
    OfValueConcat(pre + [y, x], post, v);
    OfValueConcat(pre, [x, y], v);
    OfValueConcat(pre, [y, x], v);
    PairValues(x, y, v);
  }

  /** Exchanging two neighbours of different values keeps every value's questions. */
  lemma SwapKeepsValues(s: seq<Question>, j: nat)
    requires 0 < j < |s| && s[j - 1].value != s[j].value
    ensures SameValues(s[j - 1 := s[j]][j := s[j - 1]], s)
  {
    var t := s[j - 1 := s[j]][j := s[j - 1]];
    var pre, post := s[..j - 1], s[j + 1..];
    assert s == pre + [s[j - 1], s[j]] + post;
    assert t == pre + [s[j], s[j - 1]] + post;
    forall v
      ensures OfValue(t, v) == OfValue(s, v)
    {
      SwapPairValues(pre, s[j], s[j - 1], post, v);
    }
  }

  /** The sort as the board runs it: in place, on the category's own list. Each question
      is moved left past the questions of strictly higher value before it. */
  method SortInPlace(a: array<Question>)
    modifies a
    ensures a[..] == SortByValue(old(a[..]))
  {
    ghost var orig := a[..];
    var i := 0;
    while i < a.Length
      invariant 0 <= i <= a.Length
      invariant SortedBelow(a[..], i)
      invariant SameValues(a[..], orig)
    {
      var j := i;
      SinkStarts(a[..], i);
      while j > 0 && a[j - 1].value > a[j].value
        invariant Sinking(a[..], j, i)
        invariant SameValues(a[..], orig)
        decreases j
      {
        ghost var s := a[..];
        SwapKeepsValues(s, j);
        SinkSwap(s, j, i);
        a[j - 1], a[j] := a[j], a[j - 1];
        assert a[..] == s[j - 1 := s[j]][j := s[j - 1]];
        j := j - 1;
      }
      SinkDone(a[..], j, i);
      i := i + 1;
    }
    SortByValueSpec(orig);
    SortedUnique(a[..], SortByValue(orig));
  }

  /** The first `n` questions are in order of value. */
  predicate SortedBelow(s: seq<Question>, n: nat)
    requires n <= |s|
  {
    forall x, y :: 0 <= x < y < n ==> s[x].value <= s[y].value
  }

  /** The inner loop's state: the question at `j` is on its way left; the others up to
      `i` are in order, and those after `j` are all of strictly higher value. */
  predicate Sinking(s: seq<Question>, j: nat, i: nat) {
    && j <= i < |s|
    && (forall x, y :: 0 <= x < y <= i && x != j && y != j ==> s[x].value <= s[y].value)
    && (forall y :: j < y <= i ==> s[j].value < s[y].value)
  }

  lemma SinkStarts(s: seq<Question>, i: nat)
    requires i < |s| && SortedBelow(s, i)
    ensures Sinking(s, i, i)
  {
  }

  /** Moving the sinking question past a higher neighbour keeps the inner loop's state. */
  lemma SinkSwap(s: seq<Question>, j: nat, i: nat)
    requires Sinking(s, j, i) && 0 < j && s[j - 1].value > s[j].value
    ensures Sinking(s[j - 1 := s[j]][j := s[j - 1]], j - 1, i)
  {
    var t := s[j - 1 := s[j]][j := s[j - 1]];
    forall x, y | 0 <= x < y <= i && x != j - 1 && y != j - 1
      ensures t[x].value <= t[y].value
    {
      if y == j {
        assert t[y] == s[j - 1] && t[x] == s[x];
      } else if x == j {
        assert t[x] == s[j - 1] && t[y] == s[y];
      } else {
        assert t[x] == s[x] && t[y] == s[y];
      }
    }
  }

  /** Once the sinking question meets no higher neighbour, the first `i + 1` questions
      are in order. */
  lemma SinkDone(s: seq<Question>, j: nat, i: nat)
    requires Sinking(s, j, i) && (j == 0 || s[j - 1].value <= s[j].value)
    ensures SortedBelow(s, i + 1)
  {
    forall x, y | 0 <= x < y < i + 1
      ensures s[x].value <= s[y].value
    {
      if x < j && y == j {
        assert s[x].value <= s[j - 1].value;
      }
    }
  }

  // ---------------------------------------------------------------------------------
  // The view.

  /** A question's button text: `$value`, struck through once answered. */
  datatype Label = Plain(value: int) | Struck(value: int)

  datatype Cell = Cell(question: Question, disabled: bool, text: Label)

  datatype Column = Column(name: string, cells: seq<Cell>)

  datatype Board = Board(title: string, columns: seq<Column>)

  function CellFor(q: Question, answered: seq<string>): Cell {
    var done := q.id in answered;
    Cell(q, done, if done then Struck(q.value) else Plain(q.value))
  }

  function ColumnFor(c: Category, answered: seq<string>): Column {
    Column(c.name, Map(SortByValue(c.questions), (q: Question) => CellFor(q, answered)))
  }

  function BoardView(game: Game, answered: seq<string>): Board {
    Board(game.title, Map(game.categories, (c: Category) => ColumnFor(c, answered)))
  }

  /** A column lists its category's questions sorted by value and stably, and a button
      is disabled and struck through exactly when its question's id has been answered. */
  lemma ColumnLayout(c: Category, answered: seq<string>)
    ensures var col := ColumnFor(c, answered);
      && col.name == c.name
      && Questions(col.cells) == SortByValue(c.questions)
      && multiset(Questions(col.cells)) == multiset(c.questions)
      && SortedByValue(Questions(col.cells))
      && SameValues(Questions(col.cells), c.questions)
      && forall k :: 0 <= k < |col.cells| ==>
           var cell := col.cells[k];
           && (cell.disabled <==> cell.question.id in answered)
           && (cell.text.Struck? <==> cell.disabled)
           && cell.text.value == cell.question.value
  {
    var cells := ColumnFor(c, answered).cells;
    var sorted := SortByValue(c.questions);
    SortByValueSpec(c.questions);
    assert Questions(cells) == sorted;
  }

  /** The board has a column per category, in order, laid out as `ColumnLayout` says. */
  lemma BoardLayout(game: Game, answered: seq<string>)
    ensures var b := BoardView(game, answered);
      && b.title == game.title
      && |b.columns| == |game.categories|
      && forall c :: 0 <= c < |b.columns| ==> b.columns[c] == ColumnFor(game.categories[c], answered)
  {
  }

  function Questions(cells: seq<Cell>): (qs: seq<Question>)
    ensures |qs| == |cells| && forall k :: 0 <= k < |cells| ==> qs[k] == cells[k].question
  {
    Map(cells, (c: Cell) => c.question)
  }

  /** Pressing a button: a disabled button does nothing. */
  function Click(b: Board, column: nat, row: nat): (r: Option<Question>)
    requires column < |b.columns| && row < |b.columns[column].cells|
    ensures r.Some? <==> !b.columns[column].cells[row].disabled
    ensures r.Some? ==> r.value == b.columns[column].cells[row].question
  {
    var cell := b.columns[column].cells[row];
    if cell.disabled then None else Some(cell.question)
  }

  /** A question picked on the board has not been answered yet. */
  lemma ClickedIsUnanswered(game: Game, answered: seq<string>, column: nat, row: nat)
    requires column < |BoardView(game, answered).columns|
    requires row < |BoardView(game, answered).columns[column].cells|
    ensures var r := Click(BoardView(game, answered), column, row);
      r.Some? ==> r.value.id !in answered && r.value in game.categories[column].questions
  {
    BoardLayout(game, answered);
    ColumnLayout(game.categories[column], answered);
    var b := BoardView(game, answered);
    var qs := Questions(b.columns[column].cells);
    assert qs[row] in multiset(qs);
  }
}
