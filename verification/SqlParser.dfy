/**
  The statements of the streaming SQL front end: a recursive descent parser that looks
  at most two tokens ahead, and the token sequences its trees stand for.
*/
module SqlParser {
  import opened Basics
  import opened SqlGrammar

  // ----- lists of elements none of which is the beginning of another

  ghost predicate PrefixFree<T(!new)>(u: T -> seq<Token>) {
    forall a, b, s, t :: u(a) + s == u(b) + t ==> a == b && s == t
  }

  predicate NoComma(s: seq<Token>) {
    s == [] || s[0] != Comma
  }

  ghost predicate IsList<T(!new)>(u: T -> seq<Token>, tokens: seq<Token>, list: seq<T>, rest: seq<Token>) {
    list != [] && NoComma(rest) && tokens == ListTokens(u, list) + rest
  }

  lemma {:induction false} MoreTokensAppend<T>(u: T -> seq<Token>, list: seq<T>, x: T)
    ensures MoreTokens(u, list + [x]) == MoreTokens(u, list) + [Comma] + u(x)
  {
    if list == [] {
      assert list + [x] == [x] && [x][1..] == [];
    } else {
      MoreTokensAppend(u, list[1..], x);
      assert (list + [x])[1..] == list[1..] + [x];
    }
  }

  lemma SingleList<T>(u: T -> seq<Token>, t: seq<Token>, x: T, left: seq<Token>)
    requires t == u(x) + left
    ensures t == ListTokens(u, [x]) + left
  {
    assert [x][1..] == [];
  }

  lemma LongerList<T>(u: T -> seq<Token>, t: seq<Token>, list: seq<T>, x: T, left: seq<Token>)
    requires list != [] && t == ListTokens(u, list) + ([Comma] + (u(x) + left))
    ensures t == ListTokens(u, list + [x]) + left
  {
    MoreTokensAppend(u, list[1..], x);
    assert (list + [x])[1..] == list[1..] + [x];
  }

  lemma CommaFirst<T>(u: T -> seq<Token>, more: seq<T>, rest: seq<Token>)
    ensures more == [] || !NoComma(MoreTokens(u, more) + rest)
    ensures more != [] ==> MoreTokens(u, more) + rest == [Comma] + (u(more[0]) + (MoreTokens(u, more[1..]) + rest))
    ensures more == [] ==> MoreTokens(u, more) + rest == rest
  {
    if more != [] {
      var first, others := u(more[0]), MoreTokens(u, more[1..]);
      assert MoreTokens(u, more) == [Comma] + first + others;
      hide MoreTokens;
      CommaApart(first, others, rest);
    }
  }

  lemma CommaApart(a: seq<Token>, b: seq<Token>, c: seq<Token>)
    ensures [Comma] + a + b + c == [Comma] + (a + (b + c)) && ([Comma] + a + b + c)[0] == Comma
  {
  }

  lemma AfterComma(a: seq<Token>, b: seq<Token>)
    ensures [Comma] + a == [Comma] + b ==> a == b
  {
    assert ([Comma] + a)[1..] == a && ([Comma] + b)[1..] == b;
  }

  /** Tokens begin with at most one list. */
  lemma {:induction false} OneList<T(!new)>(u: T -> seq<Token>, a: seq<T>, r: seq<Token>, b: seq<T>, s: seq<Token>)
    requires PrefixFree(u) && NoComma(r) && NoComma(s) && MoreTokens(u, a) + r == MoreTokens(u, b) + s
    ensures a == b && r == s
  {
    CommaFirst(u, a, r);
    CommaFirst(u, b, s);
    if a != [] && b != [] {
      AfterComma(u(a[0]) + (MoreTokens(u, a[1..]) + r), u(b[0]) + (MoreTokens(u, b[1..]) + s));
      OneList(u, a[1..], r, b[1..], s);
      assert a == [a[0]] + a[1..] && b == [b[0]] + b[1..];
    }
  }

  lemma HeadOfList<T(!new)>(u: T -> seq<Token>, t: seq<Token>, a: seq<T>, r: seq<Token>)
    requires IsList(u, t, a, r)
    ensures t == u(a[0]) + (MoreTokens(u, a[1..]) + r)
  {
  }

  lemma OneWholeList<T(!new)>(u: T -> seq<Token>, t: seq<Token>, a: seq<T>, r: seq<Token>, b: seq<T>, s: seq<Token>)
    requires PrefixFree(u) && IsList(u, t, a, r) && IsList(u, t, b, s)
    ensures a == b && r == s
  {
    hide ListTokens, MoreTokens;
    HeadOfList(u, t, a, r);
    HeadOfList(u, t, b, s);
    assert MoreTokens(u, a[1..]) + r == MoreTokens(u, b[1..]) + s;
    OneList(u, a[1..], r, b[1..], s);
    assert a == [a[0]] + a[1..] && b == [b[0]] + b[1..];
  }

  /** Where a list goes on, behind the comma there is an element. */
  lemma {:induction false} ElementAfterComma<T(!new)>(u: T -> seq<Token>, a: seq<T>, left: seq<Token>, b: seq<T>, rest: seq<Token>)
    returns (x: T, s: seq<Token>)
    requires PrefixFree(u) && NoComma(rest) && MoreTokens(u, a) + ([Comma] + left) == MoreTokens(u, b) + rest
    ensures left == u(x) + s
  {
    CommaFirst(u, a, [Comma] + left);
    CommaFirst(u, b, rest);
    if a == [] {
      AfterComma(left, u(b[0]) + (MoreTokens(u, b[1..]) + rest));
      x, s := b[0], MoreTokens(u, b[1..]) + rest;
    } else {
      AfterComma(u(a[0]) + (MoreTokens(u, a[1..]) + ([Comma] + left)), u(b[0]) + (MoreTokens(u, b[1..]) + rest));
      x, s := ElementAfterComma(u, a[1..], left, b[1..], rest);
    }
  }

  /** So after a comma without an element there is no list at all. */
  lemma NoLongerList<T(!new)>(u: T -> seq<Token>, tokens: seq<Token>, list: seq<T>, left: seq<Token>)
    requires PrefixFree(u) && list != [] && tokens == ListTokens(u, list) + ([Comma] + left)
    requires forall x, s :: left != u(x) + s
    ensures forall all, rest :: !IsList(u, tokens, all, rest)
  {
    forall all, rest
      ensures !IsList(u, tokens, all, rest)
    {
      if IsList(u, tokens, all, rest) {
        NoSuchList(u, tokens, list, left, all, rest);
        assert false;
      }
    }
  }

  lemma NoSuchList<T(!new)>(u: T -> seq<Token>, t: seq<Token>, list: seq<T>, left: seq<Token>, all: seq<T>, rest: seq<Token>)
    requires PrefixFree(u) && list != [] && t == ListTokens(u, list) + ([Comma] + left) && IsList(u, t, all, rest)
    ensures exists x, s :: left == u(x) + s
  {
    assert t == u(list[0]) + (MoreTokens(u, list[1..]) + ([Comma] + left));
    HeadOfList(u, t, all, rest);
    var x, s := ElementAfterComma(u, list[1..], left, all[1..], rest);
  }

  lemma NotEvenOne<T(!new)>(u: T -> seq<Token>, tokens: seq<Token>)
    requires forall x, s :: tokens != u(x) + s
    ensures forall all, rest :: !IsList(u, tokens, all, rest)
  {
    forall all, rest
      ensures !IsList(u, tokens, all, rest)
    {
      if all != [] {
        assert ListTokens(u, all) + rest == u(all[0]) + (MoreTokens(u, all[1..]) + rest);
      }
    }
  }

  lemma ColumnsPrefixFree()
    ensures PrefixFree(ColumnTokens)
  {
    forall a, b, s, t | ColumnTokens(a) + s == ColumnTokens(b) + t
      ensures a == b && s == t
    {
      var x, y := ColumnTokens(a) + s, ColumnTokens(b) + t;
      assert x[0] == y[0] && x[1] == y[1] && x[2] == y[2];
      if a.SelExpr? {
        assert x[5] == y[5];
      }
      assert s == x[|ColumnTokens(a)|..] && t == y[|ColumnTokens(b)|..];
    }
  }

  lemma NameTypesPrefixFree()
    ensures PrefixFree(NameTypeTokens)
  {
    forall a, b, s, t | NameTypeTokens(a) + s == NameTypeTokens(b) + t
      ensures a == b && s == t
    {
      var x, y := NameTypeTokens(a) + s, NameTypeTokens(b) + t;
      assert x[0] == y[0] && x[1] == y[1];
      assert s == x[2..] && t == y[2..];
    }
  }

  // ----- beginnings of fixed shape

  ghost predicate BeginsItem(t: seq<Token>) {
    |t| >= 3 && t[0].Identifier? && t[1] == KwAs && t[2].Identifier?
  }

  ghost predicate BeginsExpression(t: seq<Token>) {
    && |t| >= 6 && t[0].Identifier? && t[1] == LParen && t[2].Identifier?
    && t[3] == RParen && t[4] == KwAs && t[5].Identifier?
  }

  ghost predicate BeginsNameType(t: seq<Token>) {
    |t| >= 2 && t[0].Identifier? && (t[1] == KwInt || t[1] == KwDouble)
  }

  ghost predicate BeginsTail(t: seq<Token>) {
    && |t| >= 7 && t[0] == KwFrom && t[1].Identifier? && t[2] == LSquare && t[3].Identifier?
    && t[4] == RSquare && t[5] == KwInto && t[6].Identifier?
  }

  lemma ColumnBegins(t: seq<Token>)
    ensures (exists c, s :: t == ColumnTokens(c) + s) <==> BeginsItem(t) || BeginsExpression(t)
  {
    if BeginsItem(t) {
      assert t == ColumnTokens(SelItem(t[0].text, t[2].text)) + t[3..];
    } else if BeginsExpression(t) {
      assert t == ColumnTokens(SelExpr(t[0].text, t[2].text, t[5].text)) + t[6..];
    } else {
      forall c, s
        ensures t != ColumnTokens(c) + s
      {
        assert BeginsItem(ColumnTokens(c) + s) || BeginsExpression(ColumnTokens(c) + s);
      }
    }
  }

  lemma NameTypeBegins(t: seq<Token>)
    ensures (exists c, s :: t == NameTypeTokens(c) + s) <==> BeginsNameType(t)
  {
    if BeginsNameType(t) {
      assert t == NameTypeTokens(NameType(t[0].text, if t[1] == KwInt then IntType else DoubleType)) + t[2..];
    } else {
      forall c, s
        ensures t != NameTypeTokens(c) + s
      {
        assert BeginsNameType(NameTypeTokens(c) + s);
      }
    }
  }

  /** A list in parentheses, and what follows. */
  ghost predicate IsSchemaList(t: seq<Token>, columns: seq<NameType>, rest: seq<Token>) {
    t != [] && t[0] == LParen && IsList(NameTypeTokens, t[1..], columns, [RParen] + rest)
  }

  ghost predicate BeginsStream(t: seq<Token>) {
    && |t| >= 5 && t[0] == KwCreate && (t[1] == KwInput || t[1] == KwOutput) && t[2] == KwStream
    && t[3].Identifier? && t[4].Identifier?
  }

  ghost predicate BoundsAt(t: seq<Token>, i: nat) {
    && |t| >= i + 8 && t[i] == LParen && t[i + 1] == KwSize && t[i + 2].Number? && t[i + 3] == KwAdvance
    && t[i + 4].Number? && t[i + 5] == KwOn && t[i + 6].Identifier? && t[i + 7] == RParen
  }

  ghost predicate BeginsWindow(t: seq<Token>) {
    |t| >= 11 && t[0] == KwCreate && t[1] == KwWindow && t[2].Identifier? && BoundsAt(t, 3)
  }

  // ----- statements

  /** The tokens begin with statement s. */
  ghost predicate Stands(t: seq<Token>, s: Statement, rest: seq<Token>) {
    WellFormed(s) && t == Tokens(s) + rest
  }

  lemma SelectParts(t: seq<Token>, s: Statement, rest: seq<Token>)
    requires s.Select?
    ensures Stands(t, s, rest) <==>
              && t != [] && t[0] == KwSelect
              && IsList(ColumnTokens, t[1..], s.list, SelectTail(s.input, s.window, s.output) + rest)
  {
    if s.list != [] {
      var list, tail := ListTokens(ColumnTokens, s.list), SelectTail(s.input, s.window, s.output);
      assert [KwSelect] + list + tail + rest == [KwSelect] + (list + (tail + rest));
      if t != [] && t[0] == KwSelect {
        assert t == [KwSelect] + t[1..];
      }
    }
  }

  lemma TailParts(t: seq<Token>, input: string, window: string, output: string, rest: seq<Token>)
    ensures t == SelectTail(input, window, output) + rest <==>
              BeginsTail(t) && t[1].text == input && t[3].text == window && t[6].text == output && rest == t[7..]
  {
    if BeginsTail(t) && t[1].text == input && t[3].text == window && t[6].text == output && rest == t[7..] {
      assert t[..7] == SelectTail(input, window, output);
      assert t == t[..7] + t[7..];
    }
  }

  lemma SchemaParts(t: seq<Token>, s: Statement, rest: seq<Token>)
    requires s.CreateSchema?
    ensures Stands(t, s, rest) <==>
              && |t| >= 3 && t[0] == KwCreate && t[1] == KwSchema && t[2] == Identifier(s.name)
              && IsSchemaList(t[3..], s.columns, rest)
  {
    if s.columns != [] {
      var list := ListTokens(NameTypeTokens, s.columns);
      var start := [KwCreate, KwSchema, Identifier(s.name), LParen];
      assert start + list + [RParen] + rest == start + (list + ([RParen] + rest));
      if |t| >= 4 && t[..4] == start {
        assert t == start + t[4..] && t[3..][1..] == t[4..];
      }
      if |t| >= 4 {
        assert t[..4] == [t[0], t[1], t[2], t[3]] && t[3..][0] == t[3];
      }
    }
  }

  lemma StreamParts(t: seq<Token>, s: Statement, rest: seq<Token>)
    requires s.CreateStream?
    ensures Stands(t, s, rest) <==>
              BeginsStream(t) && t[1] == StreamToken(s.kind) && t[3].text == s.name && t[4].text == s.schema && rest == t[5..]
  {
    if BeginsStream(t) && t[1] == StreamToken(s.kind) && t[3].text == s.name && t[4].text == s.schema {
      assert t[..5] == Tokens(s);
      assert t == t[..5] + t[5..];
    }
  }

  lemma WindowParts(t: seq<Token>, s: Statement, rest: seq<Token>)
    requires s.CreateWindow?
    ensures Stands(t, s, rest) <==>
              && BeginsWindow(t) && t[2].text == s.name && t[5].text == s.size && t[7].text == s.advance
              && t[9].text == s.on && rest == t[11..]
  {
    if BeginsWindow(t) && t[2].text == s.name && t[5].text == s.size && t[7].text == s.advance && t[9].text == s.on {
      assert t[..11] == Tokens(s);
      assert t == t[..11] + t[11..];
    }
  }

  /** The first two tokens tell statements apart. */
  ghost predicate StartsLike(t: seq<Token>, s: Statement) {
    match s
    case Select(_, _, _, _) => |t| >= 1 && t[0] == KwSelect
    case CreateSchema(_, _) => |t| >= 2 && t[0] == KwCreate && t[1] == KwSchema
    case CreateStream(_, _, _) => |t| >= 2 && t[0] == KwCreate && (t[1] == KwInput || t[1] == KwOutput)
    case CreateWindow(_, _, _, _) => |t| >= 2 && t[0] == KwCreate && t[1] == KwWindow
  }

  lemma Starts(t: seq<Token>, s: Statement, rest: seq<Token>)
    requires Stands(t, s, rest)
    ensures StartsLike(t, s)
  {
    match s
    case Select(_, _, _, _) => SelectParts(t, s, rest);
    case CreateSchema(_, _) => SchemaParts(t, s, rest);
    case CreateStream(_, _, _) => StreamParts(t, s, rest);
    case CreateWindow(_, _, _, _) => WindowParts(t, s, rest);
  }

  /** The same tokens are not the beginning of two statements. */
  lemma OneReading(t: seq<Token>, s: Statement, rest: seq<Token>, s': Statement, rest': seq<Token>)
    requires Stands(t, s, rest) && Stands(t, s', rest')
    ensures s == s' && rest == rest'
  {
    hide Tokens, ListTokens, ColumnTokens, NameTypeTokens, PrefixFree, SelectTail;
    Starts(t, s, rest);
    Starts(t, s', rest');
    ColumnsPrefixFree();
    NameTypesPrefixFree();
    match s
    case Select(list, input, window, output) =>
      SelectParts(t, s, rest);
      SelectParts(t, s', rest');
      var tail, tail' := SelectTail(input, window, output) + rest, SelectTail(s'.input, s'.window, s'.output) + rest';
      OneWholeList(ColumnTokens, t[1..], list, tail, s'.list, tail');
      TailParts(tail, input, window, output, rest);
      TailParts(tail', s'.input, s'.window, s'.output, rest');
    case CreateSchema(name, columns) =>
      SchemaParts(t, s, rest);
      SchemaParts(t, s', rest');
      OneWholeList(NameTypeTokens, t[3..][1..], columns, [RParen] + rest, s'.columns, [RParen] + rest');
      assert ([RParen] + rest)[1..] == rest && ([RParen] + rest')[1..] == rest';
    case CreateStream(_, _, _) =>
      StreamParts(t, s, rest);
      StreamParts(t, s', rest');
    case CreateWindow(_, _, _, _) =>
      WindowParts(t, s, rest);
      WindowParts(t, s', rest');
  }

  /** The grammar is unambiguous. */
  lemma Unambiguous(s: Statement, s': Statement)
    requires WellFormed(s) && WellFormed(s') && Tokens(s) == Tokens(s')
    ensures s == s'
  {
    assert Stands(Tokens(s), s, []) && Stands(Tokens(s), s', []);
    OneReading(Tokens(s), s, [], s', []);
  }

  ghost predicate NoSelect(t: seq<Token>) {
    forall s: Statement, rest :: s.Select? ==> !Stands(t, s, rest)
  }

  lemma NoListNoSelect(t: seq<Token>)
    requires t == [] || t[0] != KwSelect || forall all, rest :: !IsList(ColumnTokens, t[1..], all, rest)
    ensures NoSelect(t)
  {
    forall s: Statement, rest | s.Select?
      ensures !Stands(t, s, rest)
    {
      SelectParts(t, s, rest);
    }
  }

  lemma NoTailNoSelect(t: seq<Token>, list: seq<SelectColumn>, left: seq<Token>)
    requires t != [] && IsList(ColumnTokens, t[1..], list, left) && !BeginsTail(left)
    ensures NoSelect(t)
  {
    ColumnsPrefixFree();
    forall s: Statement, rest | s.Select?
      ensures !Stands(t, s, rest)
    {
      SelectParts(t, s, rest);
      var tail := SelectTail(s.input, s.window, s.output) + rest;
      TailParts(tail, s.input, s.window, s.output, rest);
      if IsList(ColumnTokens, t[1..], s.list, tail) {
        OneWholeList(ColumnTokens, t[1..], list, left, s.list, tail);
        assert false;
      }
    }
  }

  ghost predicate NoSchema(t: seq<Token>) {
    forall s: Statement, rest :: s.CreateSchema? ==> !Stands(t, s, rest)
  }

  lemma NoListNoSchema(t: seq<Token>)
    requires |t| < 3 || t[0] != KwCreate || t[1] != KwSchema || !t[2].Identifier?
             || forall columns, rest :: !IsSchemaList(t[3..], columns, rest)
    ensures NoSchema(t)
  {
    forall s: Statement, rest | s.CreateSchema?
      ensures !Stands(t, s, rest)
    {
      SchemaParts(t, s, rest);
    }
  }

  // ----- the parser

  class Parser {
    const tokens: seq<Token>
    var pos: nat

    constructor (tokens: seq<Token>)
      ensures this.tokens == tokens && pos == 0
    {
      this.tokens, pos := tokens, 0;
    }

    /** The end of the input is no token of it. */
    predicate Valid()
      reads this
    {
      pos <= |tokens| && Eof !in tokens
    }

    function Left(): seq<Token>
      requires Valid()
      reads this
    {
      tokens[pos..]
    }

    /** The n-th token ahead. */
    function LA(n: nat): Token
      requires n > 0
      reads this
    {
      if pos + n - 1 < |tokens| then tokens[pos + n - 1] else Eof
    }

    method Match(t: Token) returns (ok: bool)
      requires Valid() && t != Eof
      modifies this`pos
      ensures Valid()
      ensures ok <==> old(pos) < |tokens| && tokens[old(pos)] == t
      ensures pos == if ok then old(pos) + 1 else old(pos)
    {
      ok := LA(1) == t;
      if ok {
        pos := pos + 1;
      }
    }

    method MatchIdentifier() returns (r: Option<string>)
      requires Valid()
      modifies this`pos
      ensures Valid()
      ensures r.Some? <==> old(pos) < |tokens| && tokens[old(pos)].Identifier?
      ensures r.Some? ==> tokens[old(pos)].text == r.value && pos == old(pos) + 1
    {
      match LA(1) {
        case Identifier(text) =>
          r := Some(text);
          pos := pos + 1;
        case _ =>
          r := None;
      }
    }

    method MatchNumber() returns (r: Option<string>)
      requires Valid()
      modifies this`pos
      ensures Valid()
      ensures r.Some? <==> old(pos) < |tokens| && tokens[old(pos)].Number?
      ensures r.Some? ==> tokens[old(pos)].text == r.value && pos == old(pos) + 1
    {
      match LA(1) {
        case Number(text) =>
          r := Some(text);
          pos := pos + 1;
        case _ =>
          r := None;
      }
    }

    /** An item or an expression, told apart by the second token. */
    method ParseSelectColumn() returns (r: Option<SelectColumn>)
      requires Valid()
      modifies this`pos
      ensures Valid()
      ensures r.Some? ==> old(Left()) == ColumnTokens(r.value) + Left()
      ensures r.None? ==> forall c, s :: old(Left()) != ColumnTokens(c) + s
    {
      ghost var start := Left();
      ColumnBegins(start);
      if LA(1).Identifier? && LA(2) == KwAs {
        r := ParseSelectItem();
      } else if LA(1).Identifier? && LA(2) == LParen {
        r := ParseSelectExpression();
      } else {
        r := None;
      }
    }

    method ParseSelectItem() returns (r: Option<SelectColumn>)
      requires Valid()
      modifies this`pos
      ensures Valid()
      ensures r.Some? <==> BeginsItem(old(Left()))
      ensures r.Some? ==> old(Left()) == ColumnTokens(r.value) + Left()
    {
      r := None;
      var item := MatchIdentifier();
      if item.Some? {
        var ok := Match(KwAs);
        if ok {
          var name := MatchIdentifier();
          if name.Some? {
            r := Some(SelItem(item.value, name.value));
          }
        }
      }
    }

    method ParseSelectExpression() returns (r: Option<SelectColumn>)
      requires Valid()
      modifies this`pos
      ensures Valid()
      ensures r.Some? <==> BeginsExpression(old(Left()))
      ensures r.Some? ==> old(Left()) == ColumnTokens(r.value) + Left()
    {
      r := None;
      var fn := MatchIdentifier();
      if fn.None? { return; }
      var ok := Match(LParen);
      if !ok { return; }
      var item := MatchIdentifier();
      if item.None? { return; }
      ok := Match(RParen);
      if !ok { return; }
      ok := Match(KwAs);
      if !ok { return; }
      var name := MatchIdentifier();
      if name.Some? {
        r := Some(SelExpr(fn.value, item.value, name.value));
      }
    }

    /** As many columns as commas lead to. */
    method ParseSelectList() returns (r: Option<seq<SelectColumn>>)
      requires Valid()
      modifies this`pos
      ensures Valid()
      ensures r.Some? ==> IsList(ColumnTokens, old(Left()), r.value, Left())
      ensures r.None? ==> forall all, rest :: !IsList(ColumnTokens, old(Left()), all, rest)
    {
      hide ColumnTokens, ListTokens, PrefixFree;
      ghost var start := Left();
      ColumnsPrefixFree();
      r := None;
      var first := ParseSelectColumn();
      if first.None? {
        NotEvenOne(ColumnTokens, start);
        return;
      }
      var list := [first.value];
      SingleList(ColumnTokens, start, first.value, Left());
      while LA(1) == Comma
        invariant Valid() && list != [] && start == ListTokens(ColumnTokens, list) + Left()
        decreases |tokens| - pos
      {
        assert Left() == [Comma] + Left()[1..];
        var ok := Match(Comma);
        ghost var left := Left();
        var column := ParseSelectColumn();
        if column.None? {
          NoLongerList(ColumnTokens, start, list, left);
          return;
        }
        LongerList(ColumnTokens, start, list, column.value, Left());
        list := list + [column.value];
      }
      r := Some(list);
    }

    /** SELECT columns FROM stream [ window ] INTO stream */
    method ParseSelectStatement() returns (r: Option<Statement>)
      requires Valid()
      modifies this`pos
      ensures Valid()
      ensures r.Some? ==> Stands(old(Left()), r.value, Left())
      ensures r.None? ==> NoSelect(old(Left()))
    {
      hide IsList, Stands, SelectTail, BeginsTail, NoSelect;
      ghost var start := Left();
      r := None;
      var ok := Match(KwSelect);
      if !ok {
        NoListNoSelect(start);
        return;
      }
      assert start[1..] == Left();
      var list := ParseSelectList();
      if list.None? {
        NoListNoSelect(start);
        return;
      }
      ghost var left := Left();
      var tail := ParseSelectTail();
      if tail.None? {
        NoTailNoSelect(start, list.value, left);
        return;
      }
      r := Some(Select(list.value, tail.value.0, tail.value.1, tail.value.2));
      SelectParts(start, r.value, Left());
    }

    method ParseSelectTail() returns (r: Option<(string, string, string)>)
      requires Valid()
      modifies this`pos
      ensures Valid()
      ensures r.Some? <==> BeginsTail(old(Left()))
      ensures r.Some? ==> old(Left()) == SelectTail(r.value.0, r.value.1, r.value.2) + Left()
    {
      ghost var start := Left();
      r := None;
      var ok := Match(KwFrom);
      if !ok { return; }
      var input := MatchIdentifier();
      if input.None? { return; }
      ok := Match(LSquare);
      if !ok { return; }
      var window := MatchIdentifier();
      if window.None? { return; }
      ok := Match(RSquare);
      if !ok { return; }
      ok := Match(KwInto);
      if !ok { return; }
      var output := MatchIdentifier();
      if output.None? { return; }
      TailParts(start, input.value, window.value, output.value, Left());
      r := Some((input.value, window.value, output.value));
    }

    method ParseDataType() returns (r: Option<DataType>)
      requires Valid()
      modifies this`pos
      ensures Valid()
      ensures r.Some? <==> old(pos) < |tokens| && (tokens[old(pos)] == KwInt || tokens[old(pos)] == KwDouble)
      ensures r.Some? ==> tokens[old(pos)] == TypeToken(r.value) && pos == old(pos) + 1
    {
      match LA(1) {
        case KwInt => r := Some(IntType); pos := pos + 1;
        case KwDouble => r := Some(DoubleType); pos := pos + 1;
        case _ => r := None;
      }
    }

    method ParseStreamType() returns (r: Option<StreamType>)
      requires Valid()
      modifies this`pos
      ensures Valid()
      ensures r.Some? <==> old(pos) < |tokens| && (tokens[old(pos)] == KwInput || tokens[old(pos)] == KwOutput)
      ensures r.Some? ==> tokens[old(pos)] == StreamToken(r.value) && pos == old(pos) + 1
    {
      match LA(1) {
        case KwInput => r := Some(Input); pos := pos + 1;
        case KwOutput => r := Some(Output); pos := pos + 1;
        case _ => r := None;
      }
    }

    method ParseColumnNameType() returns (r: Option<NameType>)
      requires Valid()
      modifies this`pos
      ensures Valid()
      ensures r.Some? ==> old(Left()) == NameTypeTokens(r.value) + Left()
      ensures r.None? ==> forall c, s :: old(Left()) != NameTypeTokens(c) + s
    {
      ghost var start := Left();
      NameTypeBegins(start);
      r := None;
      var column := MatchIdentifier();
      if column.Some? {
        var dataType := ParseDataType();
        if dataType.Some? {
          r := Some(NameType(column.value, dataType.value));
        }
      }
    }

    /** ( column type, ... ) */
    method ParseSchemaList() returns (r: Option<seq<NameType>>)
      requires Valid()
      modifies this`pos
      ensures Valid()
      ensures r.Some? ==> IsSchemaList(old(Left()), r.value, Left())
      ensures r.None? ==> forall columns, rest :: !IsSchemaList(old(Left()), columns, rest)
    {
      ghost var start := Left();
      r := None;
      var ok := Match(LParen);
      if !ok { return; }
      assert Left() == start[1..];
      var list := ParseNameTypes();
      if list.None? { return; }
      ghost var left := Left();
      ok := Match(RParen);
      if ok {
        assert left == [RParen] + Left();
        r := Some(list.value);
      } else {
        NameTypesPrefixFree();
        forall columns, rest
          ensures !IsSchemaList(start, columns, rest)
        {
          if IsList(NameTypeTokens, start[1..], columns, [RParen] + rest) {
            OneWholeList(NameTypeTokens, start[1..], list.value, left, columns, [RParen] + rest);
            assert false;
          }
        }
      }
    }

    method ParseNameTypes() returns (r: Option<seq<NameType>>)
      requires Valid()
      modifies this`pos
      ensures Valid()
      ensures r.Some? ==> IsList(NameTypeTokens, old(Left()), r.value, Left())
      ensures r.None? ==> forall all, rest :: !IsList(NameTypeTokens, old(Left()), all, rest)
    {
      hide NameTypeTokens, ListTokens, PrefixFree;
      ghost var start := Left();
      NameTypesPrefixFree();
      r := None;
      var first := ParseColumnNameType();
      if first.None? {
        NotEvenOne(NameTypeTokens, start);
        return;
      }
      var list := [first.value];
      SingleList(NameTypeTokens, start, first.value, Left());
      while LA(1) == Comma
        invariant Valid() && list != [] && start == ListTokens(NameTypeTokens, list) + Left()
        decreases |tokens| - pos
      {
        assert Left() == [Comma] + Left()[1..];
        var ok := Match(Comma);
        ghost var left := Left();
        var column := ParseColumnNameType();
        if column.None? {
          NoLongerList(NameTypeTokens, start, list, left);
          return;
        }
        LongerList(NameTypeTokens, start, list, column.value, Left());
        list := list + [column.value];
      }
      r := Some(list);
    }

    /** The three kinds of CREATE, told apart by the second token. */
    method ParseCreateStatement() returns (r: Option<Statement>)
      requires Valid()
      modifies this`pos
      ensures Valid()
      ensures r.Some? ==> Stands(old(Left()), r.value, Left())
      ensures r.None? ==> forall s: Statement, rest :: !s.Select? ==> !Stands(old(Left()), s, rest)
    {
      hide Stands, StreamToken;
      ghost var start := Left();
      if LA(1) == KwCreate && LA(2) == KwSchema {
        r := ParseCreateSchema();
      } else if LA(1) == KwCreate && LA(2) == KwWindow {
        r := ParseCreateWindow();
      } else if LA(1) == KwCreate && (LA(2) == KwInput || LA(2) == KwOutput) {
        r := ParseCreateStream();
      } else {
        r := None;
      }
      if r.None? {
        forall s: Statement, rest | !s.Select?
          ensures !Stands(start, s, rest)
        {
          if Stands(start, s, rest) {
            Starts(start, s, rest);
            assert false;
          }
        }
      }
    }

    method ParseCreateSchema() returns (r: Option<Statement>)
      requires Valid()
      modifies this`pos
      ensures Valid()
      ensures r.Some? ==> Stands(old(Left()), r.value, Left())
      ensures r.None? ==> NoSchema(old(Left()))
    {
      hide Stands, NoSchema, IsSchemaList;
      ghost var start := Left();
      r := None;
      var ok := Match(KwCreate);
      if ok {
        ok := Match(KwSchema);
      }
      if !ok {
        NoListNoSchema(start);
        return;
      }
      var name := MatchIdentifier();
      if name.None? {
        NoListNoSchema(start);
        return;
      }
      assert Left() == start[3..];
      var columns := ParseSchemaList();
      if columns.None? {
        NoListNoSchema(start);
        return;
      }
      r := Some(CreateSchema(name.value, columns.value));
      SchemaParts(start, r.value, Left());
    }

    method ParseCreateStream() returns (r: Option<Statement>)
      requires Valid()
      modifies this`pos
      ensures Valid()
      ensures r.Some? ==> Stands(old(Left()), r.value, Left())
      ensures r.None? ==> forall s: Statement, rest :: s.CreateStream? ==> !Stands(old(Left()), s, rest)
    {
      hide Stands;
      ghost var start := Left();
      forall s: Statement, rest | s.CreateStream?
        ensures Stands(start, s, rest) ==> BeginsStream(start)
      {
        StreamParts(start, s, rest);
      }
      r := None;
      var ok := Match(KwCreate);
      if !ok { return; }
      var kind := ParseStreamType();
      if kind.None? { return; }
      ok := Match(KwStream);
      if !ok { return; }
      var name := MatchIdentifier();
      if name.None? { return; }
      var schema := MatchIdentifier();
      if schema.None? { return; }
      r := Some(CreateStream(kind.value, name.value, schema.value));
      StreamParts(start, r.value, Left());
    }

    method ParseCreateWindow() returns (r: Option<Statement>)
      requires Valid()
      modifies this`pos
      ensures Valid()
      ensures r.Some? ==> Stands(old(Left()), r.value, Left())
      ensures r.None? ==> forall s: Statement, rest :: s.CreateWindow? ==> !Stands(old(Left()), s, rest)
    {
      hide Stands;
      ghost var start := Left();
      forall s: Statement, rest | s.CreateWindow?
        ensures Stands(start, s, rest) ==> BeginsWindow(start)
      {
        WindowParts(start, s, rest);
      }
      r := None;
      var ok := Match(KwCreate);
      if !ok { return; }
      ok := Match(KwWindow);
      if !ok { return; }
      var name := MatchIdentifier();
      if name.None? { return; }
      assert forall k :: 0 <= k < |start| ==> start[k] == tokens[old(pos) + k];
      var bounds := ParseWindowBounds();
      if bounds.None? { return; }
      r := Some(CreateWindow(name.value, bounds.value.0, bounds.value.1, bounds.value.2));
      WindowParts(start, r.value, Left());
    }

    /** ( SIZE number ADVANCE number ON field ) */
    method ParseWindowBounds() returns (r: Option<(string, string, string)>)
      requires Valid()
      modifies this`pos
      ensures Valid()
      ensures r.Some? <==> BoundsAt(tokens, old(pos))
      ensures r.Some? ==> pos == old(pos) + 8 && var i := old(pos);
                          r.value == (tokens[i + 2].text, tokens[i + 4].text, tokens[i + 6].text)
    {
      r := None;
      var ok := Match(LParen);
      if !ok { return; }
      var size := ParseNumberAfter(KwSize);
      if size.None? { return; }
      var advance := ParseNumberAfter(KwAdvance);
      if advance.None? { return; }
      var on := ParseWindowOn();
      if on.Some? {
        r := Some((size.value, advance.value, on.value));
      }
    }

    method ParseNumberAfter(t: Token) returns (r: Option<string>)
      requires Valid() && t != Eof
      modifies this`pos
      ensures Valid()
      ensures r.Some? <==> var i := old(pos); i + 2 <= |tokens| && tokens[i] == t && tokens[i + 1].Number?
      ensures r.Some? ==> pos == old(pos) + 2 && r.value == tokens[old(pos) + 1].text
    {
      r := None;
      var ok := Match(t);
      if ok {
        r := MatchNumber();
      }
    }

    /** ON field ) */
    method ParseWindowOn() returns (r: Option<string>)
      requires Valid()
      modifies this`pos
      ensures Valid()
      ensures r.Some? <==> var i := old(pos); i + 3 <= |tokens| && tokens[i] == KwOn && tokens[i + 1].Identifier?
                                              && tokens[i + 2] == RParen
      ensures r.Some? ==> pos == old(pos) + 3 && r.value == tokens[old(pos) + 1].text
    {
      r := None;
      var ok := Match(KwOn);
      if !ok { return; }
      var on := MatchIdentifier();
      if on.None? { return; }
      ok := Match(RParen);
      if ok {
        r := on;
      }
    }

    /** Accepts exactly the token sequences of statements, and returns the statement. */
    method ParseStatement() returns (r: Option<Statement>)
      requires Valid() && pos == 0
      modifies this`pos
      ensures r.Some? ==> WellFormed(r.value) && tokens == Tokens(r.value)
      ensures r.None? ==> forall s :: WellFormed(s) ==> tokens != Tokens(s)
      ensures r.Some? <==> Derives(STATEMENT, tokens)
      ensures r.Some? ==> TreeLeaves(r.value) == Kept(tokens)
    {
      hide Tokens, StreamToken, Derives, Kept, TreeLeaves;
      assert Left() == tokens;
      if LA(1) == KwSelect {
        r := ParseSelectStatement();
      } else if LA(1) == KwCreate {
        r := ParseCreateStatement();
      } else {
        r := None;
      }
      ghost var found, left := r, Left();
      if LA(1) != Eof {
        r := None;
      }
      if r.Some? {
        assert Tokens(r.value) + [] == Tokens(r.value);
      } else {
        forall s | WellFormed(s)
          ensures tokens != Tokens(s)
        {
          assert Tokens(s) + [] == Tokens(s);
          if tokens == Tokens(s) {
            assert Stands(tokens, s, []);
            Starts(tokens, s, []);
            if found.Some? {
              OneReading(tokens, found.value, left, s, []);
            }
            assert false;
          }
        }
      }
      AcceptedIsDerived(tokens, r);
    }
  }
}
