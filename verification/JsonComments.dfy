/** Where a comment ends: not always where one of the C language does. */
module JsonComments {
  import opened Seqs
  import opened Options
  import opened JsonValues
  import opened JsonTokener
  import opened JsonRoundTrip
  import opened JsonContainers
  import opened JsonTheorems
  import opened JsonGrammar
  import opened JsonNumbers
  import opened JsonSpaces
  import opened JsonAccepts

  /** No star is followed by a slash. */
  predicate NoEnd(b: string) {
    forall i :: 0 <= i < |b| - 1 ==> !(b[i] == '*' && b[i + 1] == '/')
  }

  function StarsAtEnd(b: string): nat {
    if b == [] || b[|b| - 1] != '*' then 0 else 1 + StarsAtEnd(b[..|b| - 1])
  }

  /** The stars at the end of a text do not depend on how it begins, unless it is stars only. */
  lemma {:induction false} StarsBehind(a: string, b: string)
    ensures StarsAtEnd(b) <= |b|
    ensures StarsAtEnd(a + b) == if StarsAtEnd(b) == |b| then StarsAtEnd(a) + |b| else StarsAtEnd(b)
    decreases |b|
  {
    if b == [] {
      assert a + b == a;
    } else {
      var n := |b| - 1;
      assert (a + b)[..|a + b| - 1] == a + b[..n] && (a + b)[|a + b| - 1] == b[n];
      StarsBehind(a, b[..n]);
    }
  }

  /** Stars being read in pairs, the text of a comment is over where it ends in C exactly if an
      even number of stars comes before the last one. */
  lemma {:induction false} PairedIff(b: string)
    requires NoEnd(b) && CKey(b)
    ensures Paired(b) <==> StarsAtEnd(b) % 2 == 0
    decreases |b|
  {
    if b == [] {
    } else if b[0] != '*' {
      PairedIff(b[1..]);
      StarsBehind([b[0]], b[1..]);
      assert [b[0]] + b[1..] == b;
    } else if |b| == 1 {
      assert b[..0] == [];
    } else {
      PairedIff(b[2..]);
      StarsOfPair(b);
    }
  }

  lemma StarsOfPair(b: string)
    requires |b| > 1 && b[0] == '*'
    ensures StarsAtEnd(b) % 2 == StarsAtEnd(b[2..]) % 2
  {
    StarsBehind(b[..2], b[2..]);
    assert b[..2] + b[2..] == b;
    StarsOfTwo(b[..2]);
  }

  lemma StarsOfTwo(p: string)
    requires |p| == 2 && p[0] == '*'
    ensures StarsAtEnd(p) == if p[1] == '*' then 2 else 0
  {
    var q := p[..1];
    assert q[..0] == [] && q[0] == '*';
    assert StarsAtEnd(q) == 1 + StarsAtEnd(q[..0]) == 1;
  }

  /** The array of one number with a comment behind it. */
  function Commented(b: string): Element {
    Element([], List([Element([], Num("1", ""), [Block(b)])], None), [])
  }

  lemma CommentedText(b: string)
    ensures ElementText(Commented(b)) == "[1/*" + b + "*/]"
  {
    var e := Element([], Num("1", ""), [Block(b)]);
    assert [Block(b)][1..] == [];
    assert GapText([Block(b)]) == "/*" + (b + "*/");
    assert "1" + "" == "1";
    assert ElementText(e) == "1" + ("/*" + (b + "*/"));
    assert ItemsText([e], None) == ElementText(e) + "]";
    assert ElementText(Commented(b)) == "[" + ItemsText([e], None);
  }

  lemma OneIsGood(cfg: Config)
    ensures GoodNumber(cfg, "1", "") && NumberMeans("1", "") == Int(1)
  {
    assert "1" + "" == "1" && "1"[1..] == "";
    assert Places("") == 0 && Pow10(0) == 1;
    assert Places("1") == 1;
    assert !Real("1") && IntegerText("1") && Integer("1") == 1;
  }

  lemma CommentedGood(cfg: Config, b: string)
    requires !cfg.strict && Paired(b)
    ensures var e := Commented(b);
      GoodElement(cfg, e) && Height(e.value) == 1 && Means(e.value) == Arr([Int(1)])
  {
    OneIsGood(cfg);
    var n := Num("1", "");
    assert Good(cfg, n) && Height(n) == 0 && Means(n) == Int(1);
    var e := Element([], n, [Block(b)]);
    assert GoodSpace(cfg.strict, Block(b));
    assert GoodElement(cfg, e);
    OneElement(cfg, e);
  }

  lemma OneElement(cfg: Config, e: Element)
    ensures GoodElement(cfg, e) ==> GoodItems(cfg, [e])
    ensures ItemsHeight([e]) == 1 + Height(e.value) && ItemsMean([e]) == [Means(e.value)]
  {
    assert [e][1..] == [] && GoodItems(cfg, []);
    assert ItemsHeight([]) == 0 && ItemsMean([]) == [];
  }

  /** The array as it is read up to its comment. */
  lemma ReachComment(cfg: Config, run: Runner, tail: string) returns (t: Tok)
    requires Runs(run, cfg) && !cfg.strict && cfg.maxDepth >= 2
    ensures Top(t) == Level(Comment, Finish, Int(1), "") && Levels(t) == 2
    ensures run(FreshTok(), "[1/*" + tail) == run(t, tail)
  {
    var rest := ['/'] + (['*'] + tail);
    assert "[1/*" + tail == ['['] + (['1'] + rest);
    OpenContainer(cfg, run, FreshTok(), '[', ['1'] + rest);
    var t1 := WithTop(FreshTok(), Level(EatWs, Array, Arr([]), ""));
    assert "" + (['1'] + rest) == ['1'] + rest;
    Enter(cfg, run, t1, ArrayAdd, "", '1', rest);
    OneIsGood(cfg);
    assert "1" + "" == ['1'];
    var t2 := ReadNumber(cfg, run, Entered(t1, ArrayAdd), "1", "", rest);
    OpenComment(cfg, run, t2, '*', tail);
    t := CommentOpened(t2, '*');
  }

  /** The last star before the slash is taken with the star before it. */
  lemma {:induction false} LastStar(b: string)
    requires NoEnd(b) && CKey(b) && StarsAtEnd(b) % 2 == 1
    ensures b != [] && b == b[..|b| - 1] + "*" && Paired(b[..|b| - 1])
  {
    PairedIff(b[..|b| - 1]);
  }

  /** Inside the comment to the end of the text. */
  lemma NeverClosed(cfg: Config, run: Runner, t: Tok)
    requires Runs(run, cfg) && Top(t).state == Comment && Top(t).saved == Finish
    ensures var r := run(t, "**/]" + [NUL]);
      r.err == Success && r.rest == [] && r.t.below == t.below && r.t.top == t.top
  {
    var t1, t2 := Goto(Append(t, "*"), CommentEnd), Append(Append(t, "*"), "*");
    assert "**/]" + [NUL] == ['*'] + (['*'] + (['/'] + ([']'] + ([NUL] + []))));
    ExecEat(cfg, run, t, '*', ['*'] + (['/'] + ([']'] + ([NUL] + []))), t1);
    assert Goto(Append(t1, "*"), Comment) == t2;
    ExecEat(cfg, run, t1, '*', ['/'] + ([']'] + ([NUL] + [])), t2);
    ExecEat(cfg, run, t2, '/', [']'] + ([NUL] + []), Append(t2, "/"));
    var t3 := Append(Append(t2, "/"), "]");
    ExecEat(cfg, run, Append(t2, "/"), ']', [NUL] + [], t3);
    assert Law(run, cfg, t3, NUL, []);
  }

  lemma RegroupStar(b: string, p: string)
    requires b == p + "*"
    ensures "[1/*" + b + "*/]" + [NUL] == "[1/*" + (p + ("**/]" + [NUL]))
  {
    assert "**/]" == "*" + "*/]";
    Assoc("[1/*", b, "*/]");
    Assoc("[1/*", b + "*/]", [NUL]);
    Assoc(p, "*", "*/]");
    Assoc(p, "**/]", [NUL]);
  }

  lemma Closed(cfg: Config, b: string)
    requires !cfg.strict && cfg.maxDepth >= 2 && Paired(b)
    ensures var r := ParseText(cfg, "[1/*" + b + "*/]");
      r.err == Success && Levels(r.t) == 1 && Top(r.t).current == Arr([Int(1)])
  {
    CommentedText(b);
    CommentedGood(cfg, b);
    GrammarAccepted(cfg, Commented(b));
  }

  lemma NotClosed(cfg: Config, b: string)
    requires !cfg.strict && cfg.maxDepth >= 2 && NoEnd(b) && CKey(b) && StarsAtEnd(b) % 2 == 1
    ensures var r := ParseText(cfg, "[1/*" + b + "*/]");
      r.err == Success && Levels(r.t) == 2 && Top(r.t).current == Int(1)
  {
    LastStar(b);
    var p, run, end := b[..|b| - 1], Calls(cfg), "**/]" + [NUL];
    CallsRun(cfg);
    RegroupStar(b, p);
    var t := ReachComment(cfg, run, p + end);
    var t1 := ReadInside(cfg, run, t, p, end);
    NeverClosed(cfg, run, t1);
  }

  /** A comment that the C language would end is ended, and the array behind it closed, exactly
      if an odd number of stars comes before the slash. Otherwise the text is accepted as well,
      but for its first element. */
  lemma {:induction false} CommentClosedIff(cfg: Config, b: string)
    requires !cfg.strict && cfg.maxDepth >= 2 && NoEnd(b) && CKey(b)
    ensures var r, odd := ParseText(cfg, "[1/*" + b + "*/]"), StarsAtEnd(b + "*") % 2 == 1;
      && r.err == Success && Levels(r.t) == (if odd then 1 else 2)
      && Top(r.t).current == if odd then Arr([Int(1)]) else Int(1)
  {
    assert (b + "*")[..|b|] == b && (b + "*")[|b|] == '*';
    assert StarsAtEnd(b + "*") == StarsAtEnd(b) + 1;
    PairedIff(b);
    if StarsAtEnd(b) % 2 == 0 {
      Closed(cfg, b);
    } else {
      NotClosed(cfg, b);
    }
  }
}
