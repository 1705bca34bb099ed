/**
  The grammar of the streaming SQL front end as data, the trees of its statements, and
  the token sequences these stand for.
*/
module SqlGrammar {
  import opened Basics

  datatype Token =
    | Identifier(text: string) | Number(text: string)
    | KwSelect | KwFrom | KwInto | KwAs
    | KwCreate | KwSchema | KwStream | KwWindow | KwInput | KwOutput
    | KwSize | KwAdvance | KwOn | KwInt | KwDouble
    | LParen | RParen | LSquare | RSquare | Comma
    | Other(text: string) | Eof

  // ----- trees

  datatype SelectColumn =
    | SelItem(item: string, name: string)
    | SelExpr(fn: string, item: string, name: string)

  datatype DataType = IntType | DoubleType

  datatype NameType = NameType(column: string, dataType: DataType)

  datatype StreamType = Input | Output

  datatype Statement =
    | Select(list: seq<SelectColumn>, input: string, window: string, output: string)
    | CreateSchema(name: string, columns: seq<NameType>)
    | CreateStream(kind: StreamType, name: string, schema: string)
    | CreateWindow(name: string, size: string, advance: string, on: string)

  /** Lists have at least one element. */
  predicate WellFormed(s: Statement) {
    match s
    case Select(list, _, _, _) => list != []
    case CreateSchema(_, columns) => columns != []
    case _ => true
  }

  // ----- what a tree stands for

  function ColumnTokens(c: SelectColumn): seq<Token> {
    match c
    case SelItem(item, name) => [Identifier(item), KwAs, Identifier(name)]
    case SelExpr(f, item, name) => [Identifier(f), LParen, Identifier(item), RParen, KwAs, Identifier(name)]
  }

  function TypeToken(t: DataType): Token {
    if t.IntType? then KwInt else KwDouble
  }

  function NameTypeTokens(c: NameType): seq<Token> {
    [Identifier(c.column), TypeToken(c.dataType)]
  }

  function StreamToken(kind: StreamType): Token {
    if kind.Input? then KwInput else KwOutput
  }

  /** Each element with a comma before it. */
  function MoreTokens<T>(u: T -> seq<Token>, list: seq<T>): seq<Token> {
    if list == [] then [] else [Comma] + u(list[0]) + MoreTokens(u, list[1..])
  }

  function ListTokens<T>(u: T -> seq<Token>, list: seq<T>): seq<Token>
    requires list != []
  {
    u(list[0]) + MoreTokens(u, list[1..])
  }

  function Tokens(s: Statement): seq<Token>
    requires WellFormed(s)
  {
    match s
    case Select(list, input, window, output) =>
      [KwSelect] + ListTokens(ColumnTokens, list) + SelectTail(input, window, output)
    case CreateSchema(name, columns) =>
      [KwCreate, KwSchema, Identifier(name), LParen] + ListTokens(NameTypeTokens, columns) + [RParen]
    case CreateStream(kind, name, schema) =>
      [KwCreate, StreamToken(kind), KwStream, Identifier(name), Identifier(schema)]
    case CreateWindow(name, size, advance, on) =>
      [KwCreate, KwWindow, Identifier(name), LParen, KwSize, Number(size), KwAdvance, Number(advance), KwOn, Identifier(on), RParen]
  }

  function SelectTail(input: string, window: string, output: string): seq<Token> {
    [KwFrom, Identifier(input), LSquare, Identifier(window), RSquare, KwInto, Identifier(output)]
  }

  // ----- the grammar

  datatype Pattern =
    | One(token: Token)
    | AnyIdentifier
    | AnyNumber
    | Then(first: Pattern, next: Pattern)
    | Or(left: Pattern, right: Pattern)
    | Many(element: Pattern)

  /** The tokens are a word of the pattern. */
  ghost predicate Derives(p: Pattern, t: seq<Token>)
    decreases p, |t|
  {
    match p
    case One(x) => t == [x]
    case AnyIdentifier => |t| == 1 && t[0].Identifier?
    case AnyNumber => |t| == 1 && t[0].Number?
    case Then(a, b) => exists i :: 0 <= i <= |t| && Derives(a, t[..i]) && Derives(b, t[i..])
    case Or(a, b) => Derives(a, t) || Derives(b, t)
    case Many(a) => t == [] || exists i :: 0 < i <= |t| && Derives(a, t[..i]) && Derives(p, t[i..])
  }

  function AllOf(ps: seq<Pattern>): Pattern
    requires ps != []
  {
    if |ps| == 1 then ps[0] else Then(ps[0], AllOf(ps[1..]))
  }

  function ListOf(p: Pattern): Pattern {
    Then(p, Many(Then(One(Comma), p)))
  }

  const SELECT_ITEM_ROW: seq<Pattern> := [AnyIdentifier, One(KwAs), AnyIdentifier]

  const SELECT_ITEM := AllOf(SELECT_ITEM_ROW)

  const SELECT_EXPRESSION_ROW: seq<Pattern> :=
    [AnyIdentifier, One(LParen), AnyIdentifier, One(RParen), One(KwAs), AnyIdentifier]

  const SELECT_EXPRESSION := AllOf(SELECT_EXPRESSION_ROW)

  const SELECT_COLUMN := Or(SELECT_ITEM, SELECT_EXPRESSION)

  const SELECT_TAIL_ROW: seq<Pattern> :=
    [One(KwFrom), AnyIdentifier, One(LSquare), AnyIdentifier, One(RSquare), One(KwInto), AnyIdentifier]

  const SELECT_TAIL := AllOf(SELECT_TAIL_ROW)

  const SELECT_STATEMENT := Then(One(KwSelect), Then(ListOf(SELECT_COLUMN), SELECT_TAIL))

  const COLUMN_NAME_TYPE_ROW: seq<Pattern> := [AnyIdentifier, Or(One(KwInt), One(KwDouble))]

  const COLUMN_NAME_TYPE := AllOf(COLUMN_NAME_TYPE_ROW)

  const SCHEMA_LIST := Then(One(LParen), Then(ListOf(COLUMN_NAME_TYPE), One(RParen)))

  const CREATE_SCHEMA := Then(One(KwCreate), Then(One(KwSchema), Then(AnyIdentifier, SCHEMA_LIST)))

  const CREATE_STREAM_ROW: seq<Pattern> :=
    [One(KwCreate), Or(One(KwInput), One(KwOutput)), One(KwStream), AnyIdentifier, AnyIdentifier]

  const CREATE_STREAM := AllOf(CREATE_STREAM_ROW)

  const CREATE_WINDOW_ROW: seq<Pattern> :=
    [One(KwCreate), One(KwWindow), AnyIdentifier, One(LParen), One(KwSize), AnyNumber, One(KwAdvance), AnyNumber,
     One(KwOn), AnyIdentifier, One(RParen)]

  const CREATE_WINDOW := AllOf(CREATE_WINDOW_ROW)

  const STATEMENT := Or(SELECT_STATEMENT, Or(CREATE_SCHEMA, Or(CREATE_STREAM, CREATE_WINDOW)))

  // ----- the trees are of the grammar

  /** The pattern takes one token. */
  predicate Single(p: Pattern) {
    match p
    case One(_) => true
    case AnyIdentifier => true
    case AnyNumber => true
    case Or(a, b) => Single(a) && Single(b)
    case _ => false
  }

  predicate Fits(p: Pattern, x: Token)
    requires Single(p)
  {
    match p
    case One(y) => x == y
    case AnyIdentifier => x.Identifier?
    case AnyNumber => x.Number?
    case Or(a, b) => Fits(a, x) || Fits(b, x)
  }

  lemma {:induction false} SingleDerives(p: Pattern, t: seq<Token>)
    requires Single(p)
    ensures Derives(p, t) <==> |t| == 1 && Fits(p, t[0])
  {
    if p.Or? {
      SingleDerives(p.left, t);
      SingleDerives(p.right, t);
    }
  }

  lemma FirstDerives(p: Pattern, rest: Pattern, t: seq<Token>)
    requires Single(p)
    ensures Derives(Then(p, rest), t) <==> t != [] && Fits(p, t[0]) && Derives(rest, t[1..])
  {
    forall i | 0 <= i <= |t|
      ensures Derives(p, t[..i]) <==> i == 1 && Fits(p, t[0])
    {
      SingleDerives(p, t[..i]);
    }
  }

  /** A row of one-token patterns takes as many tokens, one by one. */
  lemma {:induction false} RowDerives(ps: seq<Pattern>, t: seq<Token>)
    requires ps != [] && forall i :: 0 <= i < |ps| ==> Single(ps[i])
    ensures Derives(AllOf(ps), t) <==> |t| == |ps| && forall i :: 0 <= i < |ps| ==> Fits(ps[i], t[i])
  {
    if |ps| == 1 {
      SingleDerives(ps[0], t);
    } else {
      var rest := ps[1..];
      FirstDerives(ps[0], AllOf(rest), t);
      if t != [] {
        RowDerives(rest, t[1..]);
        assert forall i :: 0 <= i < |rest| ==> ps[i + 1] == rest[i];
        if |t| == |ps| {
          assert forall i :: 0 <= i < |rest| ==> t[1..][i] == t[i + 1];
        }
      }
    }
  }

  /** A word of one pattern, and then one of another. */
  lemma ThenDerives(a: Pattern, b: Pattern, x: seq<Token>, y: seq<Token>)
    requires Derives(a, x) && Derives(b, y)
    ensures Derives(Then(a, b), x + y)
  {
    assert (x + y)[..|x|] == x && (x + y)[|x|..] == y;
  }

  lemma ThenSplits(a: Pattern, b: Pattern, t: seq<Token>) returns (x: seq<Token>, y: seq<Token>)
    requires Derives(Then(a, b), t)
    ensures Derives(a, x) && Derives(b, y) && t == x + y
  {
    var i :| 0 <= i <= |t| && Derives(a, t[..i]) && Derives(b, t[i..]);
    x, y := t[..i], t[i..];
  }

  lemma ManyDerivesMore(a: Pattern, x: seq<Token>, y: seq<Token>)
    requires x != [] && Derives(a, x) && Derives(Many(a), y)
    ensures Derives(Many(a), x + y)
  {
    assert (x + y)[..|x|] == x && (x + y)[|x|..] == y;
  }

  lemma ManySplits(a: Pattern, t: seq<Token>) returns (x: seq<Token>, y: seq<Token>)
    requires t != [] && Derives(Many(a), t)
    ensures x != [] && Derives(a, x) && Derives(Many(a), y) && t == x + y
  {
    var i :| 0 < i <= |t| && Derives(a, t[..i]) && Derives(Many(a), t[i..]);
    x, y := t[..i], t[i..];
  }

  lemma ManyOfNone(a: Pattern)
    ensures Derives(Many(a), [])
  {
  }

  /** The words of the pattern are what u makes of the elements. */
  ghost predicate Makes<T(!new)>(p: Pattern, u: T -> seq<Token>) {
    forall t :: Derives(p, t) <==> IsOneOf(u, t)
  }

  ghost predicate IsOneOf<T(!new)>(u: T -> seq<Token>, t: seq<Token>) {
    exists c :: t == u(c)
  }

  lemma ItemDerives(t: seq<Token>)
    ensures Derives(SELECT_ITEM, t) <==> |t| == 3 && t[0].Identifier? && t[1] == KwAs && t[2].Identifier?
  {
    hide Derives, AllOf;
    var ps := SELECT_ITEM_ROW;
    RowDerives(ps, t);
    if |t| == 3 {
      assert Fits(ps[0], t[0]) <==> t[0].Identifier?;
      assert Fits(ps[1], t[1]) <==> t[1] == KwAs;
      assert Fits(ps[2], t[2]) <==> t[2].Identifier?;
    }
  }

  lemma ExpressionDerives(t: seq<Token>)
    ensures Derives(SELECT_EXPRESSION, t) <==>
            |t| == 6 && t[0].Identifier? && t[1] == LParen && t[2].Identifier? && t[3] == RParen && t[4] == KwAs && t[5].Identifier?
  {
    hide Derives, AllOf;
    var ps := SELECT_EXPRESSION_ROW;
    RowDerives(ps, t);
    if |t| == 6 {
      assert (Fits(ps[0], t[0]) <==> t[0].Identifier?) && (Fits(ps[1], t[1]) <==> t[1] == LParen);
      assert (Fits(ps[2], t[2]) <==> t[2].Identifier?) && (Fits(ps[3], t[3]) <==> t[3] == RParen);
      assert (Fits(ps[4], t[4]) <==> t[4] == KwAs) && (Fits(ps[5], t[5]) <==> t[5].Identifier?);
    }
  }

  lemma ColumnDerives(t: seq<Token>)
    ensures Derives(SELECT_COLUMN, t) <==> IsOneOf(ColumnTokens, t)
  {
    hide Derives, AllOf;
    ItemDerives(t);
    ExpressionDerives(t);
    OrDerives(SELECT_ITEM, SELECT_EXPRESSION, t);
    if Derives(SELECT_ITEM, t) {
      assert t == ColumnTokens(SelItem(t[0].text, t[2].text));
    } else if Derives(SELECT_EXPRESSION, t) {
      assert t == ColumnTokens(SelExpr(t[0].text, t[2].text, t[5].text));
    }
  }

  lemma ColumnMakes()
    ensures Makes(SELECT_COLUMN, ColumnTokens)
  {
    forall t: seq<Token>
      ensures Derives(SELECT_COLUMN, t) <==> IsOneOf(ColumnTokens, t)
    {
      hide *;
      ColumnDerives(t);
    }
  }

  lemma NameTypeMakes()
    ensures Makes(COLUMN_NAME_TYPE, NameTypeTokens)
  {
    hide Derives, AllOf;
    var ps := COLUMN_NAME_TYPE_ROW;
    forall t: seq<Token>
      ensures Derives(COLUMN_NAME_TYPE, t) <==> IsOneOf(NameTypeTokens, t)
    {
      RowDerives(ps, t);
      if |t| == 2 {
        assert Fits(ps[0], t[0]) <==> t[0].Identifier?;
        assert Fits(ps[1], t[1]) <==> t[1] == KwInt || t[1] == KwDouble;
        if t[0].Identifier? && (t[1] == KwInt || t[1] == KwDouble) {
          assert t == NameTypeTokens(NameType(t[0].text, if t[1] == KwInt then IntType else DoubleType));
        }
      }
      if c :| t == NameTypeTokens(c) {
        assert t[1] == KwInt || t[1] == KwDouble;
      }
    }
  }

  ghost predicate IsMoreOf<T(!new)>(u: T -> seq<Token>, t: seq<Token>) {
    exists list :: t == MoreTokens(u, list)
  }

  lemma {:induction false} ManyDerives<T(!new)>(p: Pattern, u: T -> seq<Token>, t: seq<Token>)
    requires Makes(p, u)
    ensures Derives(Many(Then(One(Comma), p)), t) <==> IsMoreOf(u, t)
    decreases |t|
  {
    hide Derives;
    var element := Then(One(Comma), p);
    if t == [] {
      ManyOfNone(element);
      assert t == MoreTokens(u, []);
    } else {
      if Derives(Many(element), t) {
        var x, y := ManySplits(element, t);
        FirstDerives(One(Comma), p, x);
        assert Derives(p, x[1..]) && IsOneOf(u, x[1..]);
        var c :| x[1..] == u(c);
        ManyDerives(p, u, y);
        var list :| y == MoreTokens(u, list);
        MoreTokensFirst(u, c, list);
        assert x == [Comma] + x[1..];
      }
      if IsMoreOf(u, t) {
        var list :| t == MoreTokens(u, list);
        var x, y := [Comma] + u(list[0]), MoreTokens(u, list[1..]);
        assert x[1..] == u(list[0]);
        assert IsOneOf(u, x[1..]) && Derives(p, x[1..]);
        FirstDerives(One(Comma), p, x);
        assert IsMoreOf(u, y);
        ManyDerives(p, u, y);
        ManyDerivesMore(element, x, y);
      }
    }
  }

  lemma MoreTokensFirst<T>(u: T -> seq<Token>, c: T, list: seq<T>)
    ensures MoreTokens(u, [c] + list) == [Comma] + u(c) + MoreTokens(u, list)
  {
    assert ([c] + list)[1..] == list;
  }

  lemma ListDerives<T(!new)>(p: Pattern, u: T -> seq<Token>, t: seq<Token>)
    requires Makes(p, u)
    ensures Derives(ListOf(p), t) <==> IsListOf(u, t)
  {
    hide Derives;
    var more := Many(Then(One(Comma), p));
    if Derives(ListOf(p), t) {
      var x, y := ThenSplits(p, more, t);
      assert IsOneOf(u, x);
      var c :| x == u(c);
      ManyDerives(p, u, y);
      var list :| y == MoreTokens(u, list);
      assert ([c] + list)[1..] == list;
      assert t == ListTokens(u, [c] + list);
    }
    if IsListOf(u, t) {
      var list :| list != [] && t == ListTokens(u, list);
      var x, y := u(list[0]), MoreTokens(u, list[1..]);
      assert IsOneOf(u, x) && Derives(p, x) && IsMoreOf(u, y);
      ManyDerives(p, u, y);
      ThenDerives(p, more, x, y);
    }
  }

  ghost predicate IsListOf<T(!new)>(u: T -> seq<Token>, t: seq<Token>) {
    exists list :: list != [] && t == ListTokens(u, list)
  }

  lemma TailDerives(t: seq<Token>)
    ensures Derives(SELECT_TAIL, t) <==>
            && |t| == 7 && t[0] == KwFrom && t[1].Identifier? && t[2] == LSquare && t[3].Identifier?
            && t[4] == RSquare && t[5] == KwInto && t[6].Identifier?
  {
    hide Derives, AllOf;
    var ps := SELECT_TAIL_ROW;
    RowDerives(ps, t);
    if |t| == 7 {
      assert (Fits(ps[0], t[0]) <==> t[0] == KwFrom) && (Fits(ps[1], t[1]) <==> t[1].Identifier?);
      assert (Fits(ps[2], t[2]) <==> t[2] == LSquare) && (Fits(ps[3], t[3]) <==> t[3].Identifier?);
      assert (Fits(ps[4], t[4]) <==> t[4] == RSquare) && (Fits(ps[5], t[5]) <==> t[5] == KwInto);
      assert Fits(ps[6], t[6]) <==> t[6].Identifier?;
    }
  }

  lemma SelectDerives(t: seq<Token>)
    ensures Derives(SELECT_STATEMENT, t) <==> exists s: Statement :: s.Select? && WellFormed(s) && t == Tokens(s)
  {
    hide Derives, AllOf, ListTokens;
    if Derives(SELECT_STATEMENT, t) {
      ColumnMakes();
      FirstDerives(One(KwSelect), Then(ListOf(SELECT_COLUMN), SELECT_TAIL), t);
      var x, y := ThenSplits(ListOf(SELECT_COLUMN), SELECT_TAIL, t[1..]);
      ListDerives(SELECT_COLUMN, ColumnTokens, x);
      TailDerives(y);
      var list :| list != [] && x == ListTokens(ColumnTokens, list);
      assert y == SelectTail(y[1].text, y[3].text, y[6].text);
      assert t == [KwSelect] + x + y;
      assert t == Tokens(Select(list, y[1].text, y[3].text, y[6].text));
    }
    if s: Statement :| s.Select? && WellFormed(s) && t == Tokens(s) {
      TokensOfSelect(s);
    }
  }

  lemma TokensOfSelect(s: Statement)
    requires s.Select? && WellFormed(s)
    ensures Derives(SELECT_STATEMENT, Tokens(s))
  {
    hide Derives, AllOf, ListTokens, ColumnTokens;
    var t, columns, tail := Tokens(s), ListTokens(ColumnTokens, s.list), SelectTail(s.input, s.window, s.output);
    assert t[0] == KwSelect && t[1..] == columns + tail;
    ColumnMakes();
    assert IsListOf(ColumnTokens, columns);
    ListDerives(SELECT_COLUMN, ColumnTokens, columns);
    TailDerives(tail);
    ThenDerives(ListOf(SELECT_COLUMN), SELECT_TAIL, columns, tail);
    FirstDerives(One(KwSelect), Then(ListOf(SELECT_COLUMN), SELECT_TAIL), t);
  }

  ghost predicate InParentheses(t: seq<Token>) {
    exists columns :: columns != [] && t == [LParen] + ListTokens(NameTypeTokens, columns) + [RParen]
  }

  lemma SchemaListDerives(t: seq<Token>)
    ensures Derives(SCHEMA_LIST, t) <==> InParentheses(t)
  {
    hide Derives, AllOf, ListTokens;
    NameTypeMakes();
    FirstDerives(One(LParen), Then(ListOf(COLUMN_NAME_TYPE), One(RParen)), t);
    if Derives(SCHEMA_LIST, t) {
      var x, y := ThenSplits(ListOf(COLUMN_NAME_TYPE), One(RParen), t[1..]);
      ListDerives(COLUMN_NAME_TYPE, NameTypeTokens, x);
      SingleDerives(One(RParen), y);
      var columns :| columns != [] && x == ListTokens(NameTypeTokens, columns);
      assert t == [LParen] + x + [RParen];
    }
    if InParentheses(t) {
      var columns :| columns != [] && t == [LParen] + ListTokens(NameTypeTokens, columns) + [RParen];
      var list := ListTokens(NameTypeTokens, columns);
      assert t[0] == LParen && t[1..] == list + [RParen];
      ListDerives(COLUMN_NAME_TYPE, NameTypeTokens, list);
      SingleDerives(One(RParen), [RParen]);
      ThenDerives(ListOf(COLUMN_NAME_TYPE), One(RParen), list, [RParen]);
    }
  }

  lemma CreateSchemaStarts(t: seq<Token>)
    ensures Derives(CREATE_SCHEMA, t) <==>
            |t| > 2 && t[0] == KwCreate && t[1] == KwSchema && t[2].Identifier? && InParentheses(t[3..])
  {
    hide Derives, AllOf, InParentheses;
    FirstDerives(One(KwCreate), Then(One(KwSchema), Then(AnyIdentifier, SCHEMA_LIST)), t);
    if t != [] {
      FirstDerives(One(KwSchema), Then(AnyIdentifier, SCHEMA_LIST), t[1..]);
      if |t| > 1 {
        assert t[1..][1..] == t[2..];
        FirstDerives(AnyIdentifier, SCHEMA_LIST, t[2..]);
        if |t| > 2 {
          assert t[2..][1..] == t[3..];
          SchemaListDerives(t[3..]);
        }
      }
    }
  }

  lemma CreateSchemaDerives(t: seq<Token>)
    ensures Derives(CREATE_SCHEMA, t) <==> exists s: Statement :: s.CreateSchema? && WellFormed(s) && t == Tokens(s)
  {
    CreateSchemaStarts(t);
    hide Derives, AllOf, ListTokens;
    if Derives(CREATE_SCHEMA, t) {
      var rest := t[3..];
      var columns :| columns != [] && rest == [LParen] + ListTokens(NameTypeTokens, columns) + [RParen];
      assert t == [KwCreate, KwSchema, t[2]] + rest;
      assert t == Tokens(CreateSchema(t[2].text, columns));
    }
    if s: Statement :| s.CreateSchema? && WellFormed(s) && t == Tokens(s) {
      assert t[3..] == [LParen] + ListTokens(NameTypeTokens, s.columns) + [RParen];
    }
  }

  lemma CreateStreamDerives(t: seq<Token>)
    ensures Derives(CREATE_STREAM, t) <==> exists s: Statement :: s.CreateStream? && t == Tokens(s)
  {
    hide Derives, AllOf;
    var ps := CREATE_STREAM_ROW;
    RowDerives(ps, t);
    if |t| == 5 {
      assert (Fits(ps[0], t[0]) <==> t[0] == KwCreate) && (Fits(ps[1], t[1]) <==> t[1] == KwInput || t[1] == KwOutput);
      assert (Fits(ps[2], t[2]) <==> t[2] == KwStream) && (Fits(ps[3], t[3]) <==> t[3].Identifier?);
      assert Fits(ps[4], t[4]) <==> t[4].Identifier?;
      if Derives(CREATE_STREAM, t) {
        assert t == Tokens(CreateStream(if t[1] == KwInput then Input else Output, t[3].text, t[4].text));
      }
    }
  }

  ghost predicate WindowRow(t: seq<Token>) {
    && |t| == 11 && t[0] == KwCreate && t[1] == KwWindow && t[2].Identifier? && t[3] == LParen && t[4] == KwSize && t[5].Number?
    && t[6] == KwAdvance && t[7].Number? && t[8] == KwOn && t[9].Identifier? && t[10] == RParen
  }

  lemma WindowRowSingle()
    ensures |CREATE_WINDOW_ROW| == 11 && forall i :: 0 <= i < 11 ==> Single(CREATE_WINDOW_ROW[i])
  {
  }

  lemma WindowFits(t: seq<Token>)
    requires |t| == 11
    ensures WindowRow(t) <==>
            && Fits(CREATE_WINDOW_ROW[0], t[0]) && Fits(CREATE_WINDOW_ROW[1], t[1]) && Fits(CREATE_WINDOW_ROW[2], t[2])
            && Fits(CREATE_WINDOW_ROW[3], t[3]) && Fits(CREATE_WINDOW_ROW[4], t[4]) && Fits(CREATE_WINDOW_ROW[5], t[5])
            && Fits(CREATE_WINDOW_ROW[6], t[6]) && Fits(CREATE_WINDOW_ROW[7], t[7]) && Fits(CREATE_WINDOW_ROW[8], t[8])
            && Fits(CREATE_WINDOW_ROW[9], t[9]) && Fits(CREATE_WINDOW_ROW[10], t[10])
  {
  }

  lemma WindowRowDerives(t: seq<Token>)
    ensures Derives(CREATE_WINDOW, t) <==> WindowRow(t)
  {
    hide Derives, AllOf, Single, Fits, WindowRow;
    WindowRowSingle();
    RowDerives(CREATE_WINDOW_ROW, t);
    if |t| == 11 {
      WindowFits(t);
    } else {
      ShortWindow(t);
    }
  }

  lemma ShortWindow(t: seq<Token>)
    requires |t| != 11
    ensures !WindowRow(t)
  {
  }

  lemma CreateWindowDerives(t: seq<Token>)
    ensures Derives(CREATE_WINDOW, t) <==> exists s: Statement :: s.CreateWindow? && t == Tokens(s)
  {
    WindowRowDerives(t);
    hide Derives, AllOf;
    if WindowRow(t) {
      assert t == [t[0], t[1], t[2], t[3], t[4], t[5], t[6], t[7], t[8], t[9], t[10]];
      assert t == Tokens(CreateWindow(t[2].text, t[5].text, t[7].text, t[9].text));
    }
  }

  /** The words of the grammar are the tokens that well-formed trees stand for. */
  lemma GrammarIff(t: seq<Token>)
    ensures Derives(STATEMENT, t) <==> exists s :: WellFormed(s) && t == Tokens(s)
  {
    SelectDerives(t);
    CreateSchemaDerives(t);
    CreateStreamDerives(t);
    CreateWindowDerives(t);
    FourKinds(t);
    hide Derives, Tokens, WellFormed;
    if s :| WellFormed(s) && t == Tokens(s) {
      assert s.Select? || s.CreateSchema? || s.CreateStream? || s.CreateWindow?;
    }
    assert forall s: Statement :: s.CreateStream? || s.CreateWindow? ==> WellFormed(s) by { ListsOnly(); }
  }

  lemma ListsOnly()
    ensures forall s: Statement :: s.CreateStream? || s.CreateWindow? ==> WellFormed(s)
  {
  }

  lemma FourKinds(t: seq<Token>)
    ensures Derives(STATEMENT, t) <==>
            Derives(SELECT_STATEMENT, t) || Derives(CREATE_SCHEMA, t) || Derives(CREATE_STREAM, t) || Derives(CREATE_WINDOW, t)
  {
    OrDerives(SELECT_STATEMENT, Or(CREATE_SCHEMA, Or(CREATE_STREAM, CREATE_WINDOW)), t);
    OrDerives(CREATE_SCHEMA, Or(CREATE_STREAM, CREATE_WINDOW), t);
    OrDerives(CREATE_STREAM, CREATE_WINDOW, t);
  }

  lemma OrDerives(a: Pattern, b: Pattern, t: seq<Token>)
    ensures Derives(Or(a, b), t) <==> Derives(a, t) || Derives(b, t)
  {
  }

  // ----- the tokens a tree keeps

  /** Tokens that are leaves of a tree: names, numbers and the keywords of a choice. */
  predicate IsLeaf(x: Token) {
    x.Identifier? || x.Number? || x == KwInput || x == KwOutput || x == KwInt || x == KwDouble
  }

  function Kept(t: seq<Token>): seq<Token> {
    if t == [] then []
    else if IsLeaf(t[0]) then [t[0]] + Kept(t[1..])
    else Kept(t[1..])
  }

  function ColumnLeaves(c: SelectColumn): seq<Token> {
    match c
    case SelItem(item, name) => [Identifier(item), Identifier(name)]
    case SelExpr(f, item, name) => [Identifier(f), Identifier(item), Identifier(name)]
  }

  function NameTypeLeaves(c: NameType): seq<Token> {
    match c.dataType
    case IntType => [Identifier(c.column), KwInt]
    case DoubleType => [Identifier(c.column), KwDouble]
  }

  function EachLeaves<T>(leaves: T -> seq<Token>, list: seq<T>): seq<Token> {
    if list == [] then [] else leaves(list[0]) + EachLeaves(leaves, list[1..])
  }

  /** The leaves of a statement's tree from left to right. */
  function TreeLeaves(s: Statement): seq<Token> {
    match s
    case Select(list, input, window, output) =>
      EachLeaves(ColumnLeaves, list) + [Identifier(input), Identifier(window), Identifier(output)]
    case CreateSchema(name, columns) => [Identifier(name)] + EachLeaves(NameTypeLeaves, columns)
    case CreateStream(Input, name, schema) => [KwInput, Identifier(name), Identifier(schema)]
    case CreateStream(Output, name, schema) => [KwOutput, Identifier(name), Identifier(schema)]
    case CreateWindow(name, size, advance, on) => [Identifier(name), Number(size), Number(advance), Identifier(on)]
  }

  lemma {:induction false} KeptJoin(a: seq<Token>, b: seq<Token>)
    ensures Kept(a + b) == Kept(a) + Kept(b)
  {
    if a == [] {
      assert a + b == b;
    } else {
      KeptJoin(a[1..], b);
      assert (a + b)[1..] == a[1..] + b;
    }
  }

  lemma KeptFirst(x: Token, rest: seq<Token>)
    ensures Kept([x] + rest) == (if IsLeaf(x) then [x] else []) + Kept(rest)
  {
    assert ([x] + rest)[1..] == rest;
  }

  function KeptOne(x: Token): seq<Token> {
    if IsLeaf(x) then [x] else []
  }

  lemma KeptTwo(a: Token, b: Token, rest: seq<Token>)
    ensures Kept([a, b] + rest) == KeptOne(a) + KeptOne(b) + Kept(rest)
  {
    hide Kept;
    KeptFirst(a, [b] + rest);
    KeptFirst(b, rest);
    assert [a] + ([b] + rest) == [a, b] + rest;
  }

  lemma KeptThree(a: Token, b: Token, c: Token, rest: seq<Token>)
    ensures Kept([a, b, c] + rest) == KeptOne(a) + KeptOne(b) + KeptOne(c) + Kept(rest)
  {
    hide Kept;
    KeptFirst(a, [b, c] + rest);
    KeptTwo(b, c, rest);
    assert [a] + ([b, c] + rest) == [a, b, c] + rest;
  }

  lemma KeptNone()
    ensures Kept([]) == []
  {
  }

  lemma ColumnKept(c: SelectColumn)
    ensures Kept(ColumnTokens(c)) == ColumnLeaves(c)
  {
    KeptNone();
    hide Kept;
    match c
    case SelItem(item, name) =>
      KeptThree(Identifier(item), KwAs, Identifier(name), []);
      assert ColumnTokens(c) == [Identifier(item), KwAs, Identifier(name)] + [];
    case SelExpr(f, item, name) =>
      var last := [RParen, KwAs, Identifier(name)] + [];
      KeptThree(RParen, KwAs, Identifier(name), []);
      KeptThree(Identifier(f), LParen, Identifier(item), last);
      assert ColumnTokens(c) == [Identifier(f), LParen, Identifier(item)] + last;
  }

  lemma NameTypeKept(c: NameType)
    ensures Kept(NameTypeTokens(c)) == NameTypeLeaves(c)
  {
    KeptNone();
    hide Kept;
    KeptTwo(Identifier(c.column), TypeToken(c.dataType), []);
    assert NameTypeTokens(c) == [Identifier(c.column), TypeToken(c.dataType)] + [];
  }

  lemma {:induction false} MoreKept<T>(u: T -> seq<Token>, leaves: T -> seq<Token>, list: seq<T>)
    requires forall c :: Kept(u(c)) == leaves(c)
    ensures Kept(MoreTokens(u, list)) == EachLeaves(leaves, list)
  {
    if list != [] {
      MoreKept(u, leaves, list[1..]);
      KeptJoin([Comma] + u(list[0]), MoreTokens(u, list[1..]));
      KeptJoin([Comma], u(list[0]));
    }
  }

  lemma ListKept<T>(u: T -> seq<Token>, leaves: T -> seq<Token>, list: seq<T>)
    requires list != [] && forall c :: Kept(u(c)) == leaves(c)
    ensures Kept(ListTokens(u, list)) == EachLeaves(leaves, list)
  {
    MoreKept(u, leaves, list[1..]);
    KeptJoin(u(list[0]), MoreTokens(u, list[1..]));
  }

  lemma SelectKept(s: Statement)
    requires s.Select? && WellFormed(s)
    ensures Kept(Tokens(s)) == TreeLeaves(s)
  {
    forall c: SelectColumn
      ensures Kept(ColumnTokens(c)) == ColumnLeaves(c)
    {
      ColumnKept(c);
    }
    var columns, tail := ListTokens(ColumnTokens, s.list), SelectTail(s.input, s.window, s.output);
    hide ColumnTokens, ColumnLeaves, ListTokens;
    ListKept(ColumnTokens, ColumnLeaves, s.list);
    KeptJoin([KwSelect] + columns, tail);
    KeptJoin([KwSelect], columns);
    TailKept(s.input, s.window, s.output);
  }

  lemma TailKept(input: string, window: string, output: string)
    ensures Kept(SelectTail(input, window, output)) == [Identifier(input), Identifier(window), Identifier(output)]
  {
    KeptNone();
    hide Kept;
    var second := [Identifier(output)] + [];
    var first := [Identifier(window), RSquare, KwInto] + second;
    KeptFirst(Identifier(output), []);
    KeptThree(Identifier(window), RSquare, KwInto, second);
    KeptThree(KwFrom, Identifier(input), LSquare, first);
    assert SelectTail(input, window, output) == [KwFrom, Identifier(input), LSquare] + first;
  }

  lemma SchemaKept(s: Statement)
    requires s.CreateSchema? && WellFormed(s)
    ensures Kept(Tokens(s)) == TreeLeaves(s)
  {
    forall c: NameType
      ensures Kept(NameTypeTokens(c)) == NameTypeLeaves(c)
    {
      NameTypeKept(c);
    }
    var columns := ListTokens(NameTypeTokens, s.columns);
    hide NameTypeTokens, NameTypeLeaves, ListTokens;
    ListKept(NameTypeTokens, NameTypeLeaves, s.columns);
    var first := [KwCreate, KwSchema, Identifier(s.name), LParen];
    StartKept(s.name);
    KeptJoin(first, columns);
    KeptJoin(first + columns, [RParen]);
    hide Kept, EachLeaves;
    KeptFirst(RParen, []);
    assert [RParen] + [] == [RParen];
    KeptNone();
    assert Kept(Tokens(s)) == [Identifier(s.name)] + Kept(columns) + [];
  }

  lemma StartKept(name: string)
    ensures Kept([KwCreate, KwSchema, Identifier(name), LParen]) == [Identifier(name)]
  {
    KeptNone();
    hide Kept;
    KeptFirst(LParen, []);
    KeptThree(KwCreate, KwSchema, Identifier(name), [LParen] + []);
    assert [KwCreate, KwSchema, Identifier(name), LParen] == [KwCreate, KwSchema, Identifier(name)] + ([LParen] + []);
  }

  lemma StreamKept(s: Statement)
    requires s.CreateStream?
    ensures Kept(Tokens(s)) == TreeLeaves(s)
  {
    KeptNone();
    hide Kept;
    KeptTwo(Identifier(s.name), Identifier(s.schema), []);
    KeptThree(KwCreate, StreamToken(s.kind), KwStream, [Identifier(s.name), Identifier(s.schema)] + []);
    assert Tokens(s) == [KwCreate, StreamToken(s.kind), KwStream] + ([Identifier(s.name), Identifier(s.schema)] + []);
  }

  lemma WindowKept(s: Statement)
    requires s.CreateWindow?
    ensures Kept(Tokens(s)) == TreeLeaves(s)
  {
    KeptNone();
    hide Kept;
    var fourth := [Identifier(s.on), RParen] + [];
    var third := [KwAdvance, Number(s.advance), KwOn] + fourth;
    var second := [LParen, KwSize, Number(s.size)] + third;
    KeptTwo(Identifier(s.on), RParen, []);
    KeptThree(KwAdvance, Number(s.advance), KwOn, fourth);
    KeptThree(LParen, KwSize, Number(s.size), third);
    KeptThree(KwCreate, KwWindow, Identifier(s.name), second);
    WindowTokens(s, [KwCreate, KwWindow, Identifier(s.name)] + second);
  }

  lemma WindowTokens(s: Statement, t: seq<Token>)
    requires s.CreateWindow?
    requires t == [KwCreate, KwWindow, Identifier(s.name)]
                  + ([LParen, KwSize, Number(s.size)] + ([KwAdvance, Number(s.advance), KwOn] + ([Identifier(s.on), RParen] + [])))
    ensures Tokens(s) == t
  {
  }

  /** A tree's leaves are the names, numbers and choices among its tokens, in their order. */
  lemma LeavesAreKept(s: Statement)
    requires WellFormed(s)
    ensures Kept(Tokens(s)) == TreeLeaves(s)
  {
    if s.Select? {
      SelectKept(s);
    } else if s.CreateSchema? {
      SchemaKept(s);
    } else if s.CreateStream? {
      StreamKept(s);
    } else {
      WindowKept(s);
    }
  }

  /** What a parser accepts, and the tree it returns, by the grammar alone. */
  lemma AcceptedIsDerived(t: seq<Token>, r: Option<Statement>)
    requires r.Some? ==> WellFormed(r.value) && t == Tokens(r.value)
    requires r.None? ==> forall s :: WellFormed(s) ==> t != Tokens(s)
    ensures r.Some? <==> Derives(STATEMENT, t)
    ensures r.Some? ==> TreeLeaves(r.value) == Kept(t)
  {
    hide Tokens, Derives, Kept, TreeLeaves;
    GrammarIff(t);
    if r.Some? {
      LeavesAreKept(r.value);
    }
  }
}
