/** When an `else` binds to the nearest `if`, told from the tokens alone. */
module ElseTokens {
  import opened Tokens
  import opened ExprGrammar
  import opened ExprParsing
  import opened Ast
  import opened Conservation
  import opened StmtGrammar
  import opened StmtParsing
  import opened StmtTheorems
  import opened StmtAst
  import opened StmtConservation
  import opened DanglingElse

  /** Parentheses aside, no `else` comes right after another. */
  ghost predicate ElsesApart(ts: seq<Token>) {
    var xs := Strip(ts);
    forall i :: 0 <= i < |xs| - 1 ==> !(xs[i] == Keyword(ELSE) && xs[i + 1] == Keyword(ELSE))
  }

  lemma Inside(a: seq<Token>, p: seq<Token>, b: seq<Token>)
    requires ElsesApart(a + p + b)
    ensures ElsesApart(p)
  {
    hide Strip;
    StripConcat(a + p, b);
    StripConcat(a, p);
    var (xs, ys, n) := (Strip(p), Strip(a + p + b), |Strip(a)|);
    forall i | 0 <= i < |xs| - 1
      ensures !(xs[i] == Keyword(ELSE) && xs[i + 1] == Keyword(ELSE))
    {
      assert xs[i] == ys[n + i] && xs[i + 1] == ys[n + i + 1];
    }
  }

  /** Tokens ending in `else` cannot be followed by another. */
  lemma Clash(a: seq<Token>, p: seq<Token>, b: seq<Token>)
    requires Strip(p) != [] && Strip(p)[|Strip(p)| - 1] == Keyword(ELSE)
    ensures !ElsesApart(a + p + [Keyword(ELSE)] + b)
  {
    StripConcat(a + p + [Keyword(ELSE)], b);
    StripConcat(a + p, [Keyword(ELSE)]);
    StripConcat(a, p);
    StripOne(Keyword(ELSE));
    var ys := Strip(a + p + [Keyword(ELSE)] + b);
    var n := |Strip(a)| + |Strip(p)|;
    assert ys[n - 1] == Strip(p)[|Strip(p)| - 1] && ys[n] == Keyword(ELSE);
  }

  lemma LastOf(a: seq<Token>, b: seq<Token>)
    requires Strip(b) != []
    ensures Strip(a + b) != [] && Strip(a + b)[|Strip(a + b)| - 1] == Strip(b)[|Strip(b)| - 1]
  {
    StripConcat(a, b);
  }

  /** The last part of `s` is a statement. */
  predicate HasBody(s: CStmt) {
    s.If? || s.IfElse? || s.Case? || s.Default? || s.Switch? || s.While? || s.For?
  }

  /** The tokens of a statement before its last part. */
  ghost function Front(s: CStmt): seq<Token>
    requires HasBody(s)
  {
    match s
    case If(c, _) => [Keyword(IF)] + Print(Paren(c))
    case IfElse(c, t, _) => [Keyword(IF)] + Print(Paren(c)) + PrintStmt(t) + [Keyword(ELSE)]
    case Case(e, _) => [Keyword(CASE)] + (Print(e) + [Punct(COLON)])
    case Default(_) => [Keyword(DEFAULT), Punct(COLON)]
    case Switch(c, _) => [Keyword(SWITCH)] + Print(Paren(c))
    case While(c, _) => [Keyword(WHILE)] + Print(Paren(c))
    case For(_, _, _, _) => PrintHeader(s)
  }

  ghost function Body(s: CStmt): CStmt
    requires HasBody(s)
  {
    match s
    case If(_, t) => t
    case IfElse(_, _, e) => e
    case _ => s.body
  }

  lemma FrontAndBody(s: CStmt)
    requires HasBody(s)
    ensures PrintStmt(s) == Front(s) + PrintStmt(Body(s))
  {
    hide Print;
  }

  lemma {:induction false} EmptyElseIsLast(env: Env, s: CStmt)
    requires LegalStmt(env, s) && EndsEmptyElse(s)
    ensures var xs := Strip(PrintStmt(s)); xs != [] && xs[|xs| - 1] == Keyword(ELSE)
    decreases s
  {
    hide Strip, Print, Legal, StmtStops;
    FrontAndBody(s);
    if s.IfElse? && s.els.Void? {
      var a := [Keyword(IF)] + Print(Paren(s.cond)) + PrintStmt(s.thn);
      StripOne(Keyword(ELSE));
      LastOf(a, [Keyword(ELSE)]);
      HollowStrip(s.els.e);
      StripConcat(Front(s), PrintStmt(s.els));
      assert Front(s) == a + [Keyword(ELSE)];
    } else {
      EmptyElseIsLast(env, Body(s));
      LastOf(Front(s), PrintStmt(Body(s)));
    }
  }

  lemma ThenApart(s: CStmt)
    requires s.IfElse? && ElsesApart(PrintStmt(s))
    ensures ElsesApart(PrintStmt(s.thn))
  {
    hide ElsesApart, Print;
    var a := [Keyword(IF)] + Print(Paren(s.cond));
    assert PrintStmt(s) == a + PrintStmt(s.thn) + ([Keyword(ELSE)] + PrintStmt(s.els));
    Inside(a, PrintStmt(s.thn), [Keyword(ELSE)] + PrintStmt(s.els));
  }

  lemma NoEmptyElseBefore(env: Env, s: CStmt)
    requires s.IfElse? && LegalStmt(env, s.thn) && ElsesApart(PrintStmt(s))
    ensures !EndsEmptyElse(s.thn)
  {
    hide ElsesApart, Print, LegalStmt;
    if EndsEmptyElse(s.thn) {
      var a := [Keyword(IF)] + Print(Paren(s.cond));
      assert PrintStmt(s) == a + PrintStmt(s.thn) + [Keyword(ELSE)] + PrintStmt(s.els);
      EmptyElseIsLast(env, s.thn);
      Clash(a, PrintStmt(s.thn), PrintStmt(s.els));
    }
  }

  lemma {:induction false} ApartIsFilled(env: Env, s: CStmt)
    requires s.Decl? || LegalStmt(env, s)
    requires ElsesApart(PrintStmt(s))
    ensures ElsesFilled(s)
    decreases s
  {
    hide ElsesApart, Print, Legal, StmtStops;
    if HasBody(s) {
      FrontAndBody(s);
      assert Front(s) + PrintStmt(Body(s)) + [] == PrintStmt(s);
      Inside(Front(s), PrintStmt(Body(s)), []);
      ApartIsFilled(env, Body(s));
      if s.IfElse? {
        ThenApart(s);
        ApartIsFilled(env, s.thn);
        NoEmptyElseBefore(env, s);
      }
    } else if s.Do? {
      var b := [Keyword(WHILE)] + Print(Paren(s.cond)) + [Punct(SEMICOLON)];
      assert PrintStmt(s) == [Keyword(DO)] + PrintStmt(s.body) + b;
      Inside([Keyword(DO)], PrintStmt(s.body), b);
      ApartIsFilled(env, s.body);
    } else if s.Block? {
      assert PrintStmt(s) == [Punct(LBRACE)] + PrintItems(s.items) + [];
      Inside([Punct(LBRACE)], PrintItems(s.items), []);
      ApartIsFilledItems(env, s.items);
    }
  }

  lemma {:induction false} ApartIsFilledItems(env: Env, items: Items)
    requires LegalItems(env, items) && ElsesApart(PrintItems(items))
    ensures ElsesFilledItems(items)
    decreases items
  {
    hide ElsesApart, Print, Legal, StmtStops;
    if items.Item? {
      assert PrintItems(items) == [] + PrintStmt(items.head) + PrintItems(items.tail);
      assert PrintItems(items) == PrintStmt(items.head) + PrintItems(items.tail) + [];
      Inside([], PrintStmt(items.head), PrintItems(items.tail));
      Inside(PrintStmt(items.head), PrintItems(items.tail), []);
      ApartIsFilled(env, items.head);
      ApartIsFilledItems(env, items.tail);
    }
  }

  /** When no two `else` come together among the tokens consumed, parentheses aside, every `else` of
      the result is attached to the nearest `if` that can take it. */
  lemma ElsesApartBindNearest(env: Env, ts: seq<Token>)
    requires ParseStmt(env, ts).Ok?
    requires ElsesApart(ts[..|ts| - |ParseStmt(env, ts).rest|])
    ensures NearestIf(EraseStmt(ParseStmt(env, ts).node))
  {
    var r := ParseStmt(env, ts);
    StmtSound(env, ts);
    assert ts[..|ts| - |r.rest|] == PrintStmt(r.node);
    ApartIsFilled(env, r.node);
    ErasedNearest(env, r.node);
  }
}
