/** What it takes for the parser to end with undefined behaviour. */
module UndefinedParsing {
  import opened Tokens
  import opened ExprGrammar
  import opened ExprParsing
  import opened ExprTheorems
  import opened Ast
  import opened StmtGrammar
  import opened StmtParsing
  import opened StmtTheorems

  /** Among `ts` there is a member operator or a string literal, or the last token is an assignment
      operator. */
  ghost predicate Stray(ts: seq<Token>) {
    (exists t <- ts :: IsMember(t) || t.StringLit?) || (ts != [] && IsAssign(ts[|ts| - 1]))
  }

  /** `rest` is what is left of `ts` after some tokens. */
  ghost predicate IsRest(rest: seq<Token>, ts: seq<Token>) {
    |rest| <= |ts| && rest == ts[|ts| - |rest|..]
  }

  lemma StrayRest(rest: seq<Token>, ts: seq<Token>)
    requires IsRest(rest, ts) && Stray(rest)
    ensures Stray(ts)
  {
    var n := |ts| - |rest|;
    if t :| t in rest && (IsMember(t) || t.StringLit?) {
      var i :| 0 <= i < |rest| && rest[i] == t;
      assert ts[n + i] == t;
    }
  }

  lemma RestOfPrint(p: seq<Token>, rest: seq<Token>)
    ensures IsRest(rest, p + rest)
  {
  }

  /** Dropping the first `n` tokens of a rest leaves a rest. */
  lemma DropRest(rest: seq<Token>, ts: seq<Token>, n: nat)
    requires IsRest(rest, ts) && n <= |rest|
    ensures IsRest(rest[n..], ts)
  {
  }

  // ---------- expressions ----------

  lemma ParseRest(env: Env, k: Layer, ts: seq<Token>)
    requires Parse(env, k, ts).Ok?
    ensures IsRest(Parse(env, k, ts).rest, ts)
  {
    hide Parse, Legal, Print, Stops;
    Sound(env, k, ts);
    RestOfPrint(Print(Parse(env, k, ts).node), Parse(env, k, ts).rest);
  }

  /** An expression parse is undefined only on a stray token. */
  lemma {:induction false} UndefinedNeedsStray(env: Env, k: Layer, ts: seq<Token>)
    requires Parse(env, k, ts) == Err(Undefined)
    ensures Stray(ts)
    decreases |ts|, k, 1
  {
    hide Stray, IsRest;
    if k == PRIMARY {
      PrimaryUndefined(env, ts);
    } else if k == POSTFIX {
      PostfixUndefined(env, ts);
    } else if k == UNARY {
      if IsPrefix(Head(ts)) {
        UndefinedNeedsStray(env, UNARY, ts[1..]);
        StrayTail(ts);
      } else {
        UndefinedNeedsStray(env, POSTFIX, ts);
      }
    } else if k == COND {
      CondUndefined(env, ts);
    } else if k == ASSIGNMENT {
      AssignUndefined(env, ts);
    } else {
      var l := Parse(env, k - 1, ts);
      if l.Err? {
        UndefinedNeedsStray(env, k - 1, ts);
      } else {
        LoopUndefined(env, k, l.node, l.rest);
        ParseRest(env, k - 1, ts);
        StrayRest(l.rest, ts);
      }
    }
  }

  lemma StrayTail(ts: seq<Token>)
    requires ts != [] && Stray(ts[1..])
    ensures Stray(ts)
  {
    StrayRest(ts[1..], ts);
  }

  lemma {:induction false} PrimaryUndefined(env: Env, ts: seq<Token>)
    requires ParsePrimary(env, ts) == Err(Undefined)
    ensures Stray(ts)
    decreases |ts|, PRIMARY, 0
  {
    hide Parse, IsAssign;
    if Head(ts) == Punct(LPAREN) {
      UndefinedNeedsStray(env, EXPR, ts[1..]);
      StrayTail(ts);
    } else {
      assert ts[0] in ts;
    }
  }

  lemma {:induction false} PostfixUndefined(env: Env, ts: seq<Token>)
    requires ParsePostfix(env, ts) == Err(Undefined)
    ensures Stray(ts)
    decreases |ts|, POSTFIX, 0
  {
    hide Parse, IsRest, Stray, IsMember;
    var b := Parse(env, PRIMARY, ts);
    if b.Err? {
      UndefinedNeedsStray(env, PRIMARY, ts);
    } else {
      ParseRest(env, PRIMARY, ts);
      if Head(b.rest) == Punct(LBRACKET) {
        UndefinedNeedsStray(env, EXPR, b.rest[1..]);
        StrayTail(b.rest);
      } else {
        MemberIsStray(b.rest);
      }
      StrayRest(b.rest, ts);
    }
  }

  lemma MemberIsStray(ts: seq<Token>)
    requires IsMember(Head(ts))
    ensures Stray(ts)
  {
    assert ts[0] in ts;
  }

  lemma {:induction false} CondUndefined(env: Env, ts: seq<Token>)
    requires ParseCond(env, ts) == Err(Undefined)
    ensures Stray(ts)
    decreases |ts|, COND, 0
  {
    hide Parse, IsRest, Stray;
    var c := Parse(env, 7, ts);
    if c.Err? {
      UndefinedNeedsStray(env, 7, ts);
    } else {
      ParseRest(env, 7, ts);
      var t := Parse(env, EXPR, c.rest[1..]);
      if t.Err? {
        UndefinedNeedsStray(env, EXPR, c.rest[1..]);
      } else {
        ParseRest(env, EXPR, c.rest[1..]);
        UndefinedNeedsStray(env, COND, t.rest[1..]);
        StrayTail(t.rest);
        StrayRest(t.rest, c.rest[1..]);
      }
      StrayTail(c.rest);
      StrayRest(c.rest, ts);
    }
  }

  lemma {:induction false} AssignUndefined(env: Env, ts: seq<Token>)
    requires ParseAssign(env, ts) == Err(Undefined)
    ensures Stray(ts)
    decreases |ts|, ASSIGNMENT, 0
  {
    hide Parse, IsRest, Stray;
    var l := Parse(env, COND, ts);
    if l.Err? {
      UndefinedNeedsStray(env, COND, ts);
    } else {
      ParseRest(env, COND, ts);
      if |l.rest| < 2 {
        LastIsStray(l.rest);
      } else {
        UndefinedNeedsStray(env, ASSIGNMENT, l.rest[2..]);
        assert l.rest[1..][1..] == l.rest[2..];
        StrayTail(l.rest[1..]);
        StrayTail(l.rest);
      }
      StrayRest(l.rest, ts);
    }
  }

  lemma LastIsStray(ts: seq<Token>)
    requires |ts| < 2 && IsAssign(Head(ts))
    ensures Stray(ts)
  {
  }

  lemma {:induction false} LoopUndefined(env: Env, k: Layer, lhs: CExpr, ts: seq<Token>)
    requires IsLoop(k) && Loop(env, k, lhs, ts) == Err(Undefined)
    ensures Stray(ts)
    decreases |ts|, k, 0
  {
    hide Parse, IsRest, Stray;
    var rhs := Parse(env, k - 1, ts[1..]);
    if rhs.Err? {
      UndefinedNeedsStray(env, k - 1, ts[1..]);
    } else {
      LoopUndefined(env, k, Binary(ts[0], lhs, rhs.node), rhs.rest);
      ParseRest(env, k - 1, ts[1..]);
      StrayRest(rhs.rest, ts[1..]);
    }
    StrayTail(ts);
  }

  // ---------- statements ----------

  lemma UntilRest(env: Env, p: Punct, ts: seq<Token>)
    requires IsCloser(Punct(p))
    ensures var r := Until(env, p, ts);
            && (r.Ok? ==> IsRest(r.rest, ts))
            && (r == Err(Undefined) ==> Stray(ts))
  {
    hide Parse, Legal, Print, Stray;
    var r := Until(env, p, ts);
    if r.Ok? {
      UntilIsPrint(env, p, ts, r.node, r.rest);
      RestOfPrint(Print(r.node) + [Punct(p)], r.rest);
    } else if r == Err(Undefined) {
      UndefinedNeedsStray(env, EXPR, ts);
    }
  }

  lemma GuardRest(env: Env, ts: seq<Token>)
    ensures var r := Guard(env, ts);
            && (r.Ok? ==> IsRest(r.rest, ts))
            && (r == Err(Undefined) ==> Stray(ts))
  {
    hide Until, Stray;
    if Head(ts) == Punct(LPAREN) {
      UntilRest(env, RPAREN, ts[1..]);
      if Guard(env, ts) == Err(Undefined) { StrayTail(ts); }
    }
  }

  lemma StmtRest(env: Env, ts: seq<Token>)
    requires ParseStmt(env, ts).Ok?
    ensures IsRest(ParseStmt(env, ts).rest, ts)
  {
    hide ParseStmt, LegalStmt, StmtStops, PrintStmt;
    StmtSound(env, ts);
    RestOfPrint(PrintStmt(ParseStmt(env, ts).node), ParseStmt(env, ts).rest);
  }

  /** A statement parse is undefined only on a stray token. */
  lemma {:induction false} UndefinedStmtNeedsStray(env: Env, ts: seq<Token>)
    requires ParseStmt(env, ts) == Err(Undefined)
    ensures Stray(ts)
    decreases |ts|, 1
  {
    hide Stray, Parse, Hollow;
    var t := Head(ts);
    if t == Punct(LBRACE) {
      ItemsUndefined(env, ts[1..]);
      StrayTail(ts);
    } else if !t.Keyword? {
      UndefinedNeedsStray(env, EXPR, ts);
    } else if t.kw == IF {
      IfUndefined(env, ts);
    } else if t.kw == DO {
      DoUndefined(env, ts);
    } else if t.kw == FOR {
      ForUndefined(env, ts);
    } else if t.kw == RETURN {
      UntilRest(env, SEMICOLON, ts[1..]);
      StrayTail(ts);
    } else {
      BodyUndefined(env, ts);
    }
  }

  /** The body that is parsed from `rest`, and all before it. */
  lemma {:induction false} BodyStray(env: Env, rest: seq<Token>, ts: seq<Token>)
    requires IsRest(rest, ts) && ParseStmt(env, rest) == Err(Undefined)
    ensures Stray(ts)
    decreases |rest|, 2
  {
    UndefinedStmtNeedsStray(env, rest);
    StrayRest(rest, ts);
  }

  lemma {:induction false} BodyUndefined(env: Env, ts: seq<Token>)
    requires Head(ts).Keyword? && ParseStmt(env, ts) == Err(Undefined)
    requires var kw := Head(ts).kw; kw == CASE || kw == DEFAULT || kw == SWITCH || kw == WHILE
                                    || kw == BREAK || kw == CONTINUE || kw == GOTO || !IsStmtKeyword(Head(ts))
    ensures Stray(ts)
    decreases |ts|, 0
  {
    hide Stray, Parse, Until, Guard;
    if ts[0].kw == CASE {
      var e := Until(env, COLON, ts[1..]);
      UntilRest(env, COLON, ts[1..]);
      if e.Ok? { BodyStray(env, e.rest, ts[1..]); }
      StrayTail(ts);
    } else if ts[0].kw == DEFAULT {
      BodyStray(env, ts[2..], ts);
    } else {
      var c := Guard(env, ts[1..]);
      GuardRest(env, ts[1..]);
      if c.Ok? { BodyStray(env, c.rest, ts[1..]); }
      StrayTail(ts);
    }
  }

  lemma {:induction false} IfUndefined(env: Env, ts: seq<Token>)
    requires Head(ts) == Keyword(IF) && ParseIf(env, ts) == Err(Undefined)
    ensures Stray(ts)
    decreases |ts|, 0
  {
    hide Stray, Parse, Guard, Hollow, ParseStmt;
    var c := Guard(env, ts[1..]);
    GuardRest(env, ts[1..]);
    if c.Ok? {
      var t := ParseStmt(env, c.rest);
      if t.Err? {
        BodyStray(env, c.rest, ts[1..]);
      } else {
        StmtRest(env, c.rest);
        DropRest(t.rest, c.rest, 1);
        BodyStray(env, t.rest[1..], c.rest);
        StrayRest(c.rest, ts[1..]);
      }
    }
    StrayTail(ts);
  }

  lemma {:induction false} DoUndefined(env: Env, ts: seq<Token>)
    requires Head(ts) == Keyword(DO) && ParseDo(env, ts) == Err(Undefined)
    ensures Stray(ts)
    decreases |ts|, 0
  {
    hide Stray, Parse, Guard, ParseStmt;
    var b := ParseStmt(env, ts[1..]);
    if b.Err? {
      BodyStray(env, ts[1..], ts[1..]);
    } else {
      StmtRest(env, ts[1..]);
      GuardRest(env, b.rest[1..]);
      StrayTail(b.rest);
      StrayRest(b.rest, ts[1..]);
    }
    StrayTail(ts);
  }

  lemma InitRest(env: Env, ts: seq<Token>)
    ensures var r := ParseInit(env, ts);
            && (r.Ok? ==> IsRest(r.rest, ts))
            && (r == Err(Undefined) ==> Stray(ts))
  {
    hide Until, Stray;
    if !IsDeclSpec(Head(ts)) { UntilRest(env, SEMICOLON, ts); }
  }

  lemma {:induction false} ForUndefined(env: Env, ts: seq<Token>)
    requires Head(ts) == Keyword(FOR) && ParseFor(env, ts) == Err(Undefined)
    ensures Stray(ts)
    decreases |ts|, 0
  {
    hide Stray, Parse, Until, ParseStmt, ParseInit, IsRest;
    var i := ParseInit(env, ts[2..]);
    InitRest(env, ts[2..]);
    if i.Ok? {
      var c := Until(env, SEMICOLON, i.rest);
      UntilRest(env, SEMICOLON, i.rest);
      if c.Ok? {
        var st := Until(env, RPAREN, c.rest);
        UntilRest(env, RPAREN, c.rest);
        if st.Ok? { BodyStray(env, st.rest, c.rest); }
        StrayRest(c.rest, i.rest);
      }
      StrayRest(i.rest, ts[2..]);
    }
    assert ts[1..][1..] == ts[2..];
    StrayTail(ts[1..]);
    StrayTail(ts);
  }

  lemma {:induction false} ItemsUndefined(env: Env, ts: seq<Token>)
    requires ParseItems(env, ts) == Err(Undefined)
    ensures Stray(ts)
    decreases |ts|, 3
  {
    hide Stray, ParseStmt, Parse;
    var h := ParseItem(env, ts);
    if h.Err? {
      UndefinedStmtNeedsStray(env, ts);
    } else {
      ItemsUndefined(env, h.rest);
      ItemRest(env, ts);
      StrayRest(h.rest, ts);
    }
  }

  lemma ItemRest(env: Env, ts: seq<Token>)
    requires ParseItem(env, ts).Ok?
    ensures IsRest(ParseItem(env, ts).rest, ts)
  {
    hide ParseStmt;
    if !IsDeclSpec(Head(ts)) { StmtRest(env, ts); }
  }
}
