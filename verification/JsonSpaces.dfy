/** White space and comments: what the grammar allows between tokens is passed over, and
    nothing else is. */
module JsonSpaces {
  import opened Seqs
  import opened JsonValues
  import opened JsonTokener
  import opened JsonRoundTrip
  import opened JsonGrammar

  // ---------------------------------------------------------------- input

  /** The input ends with its only NUL. */
  predicate Terminated(s: string) {
    s != [] && s[|s| - 1] == NUL && forall i :: 0 <= i < |s| - 1 ==> s[i] != NUL
  }

  lemma Behind(s: string)
    requires Terminated(s) && s[0] != NUL
    ensures |s| > 1 && Terminated(s[1..]) && s == [s[0]] + s[1..]
  {
  }

  /** A success before the end of the input. */
  predicate Accepts(r: Parsed) {
    r.err == Success && r.rest != []
  }

  lemma StopFails(cfg: Config, run: Runner, t: Tok, c: char, rest: string)
    requires Runs(run, cfg) && Step(cfg, t, c).Stop? && Step(cfg, t, c).err != Success
    ensures !Accepts(run(t, [c] + rest))
  {
    assert Law(run, cfg, t, c, rest);
  }

  /** A call that uses the end of the text leaves nothing. */
  lemma NulFails(cfg: Config, run: Runner, t: Tok, s: string)
    requires Runs(run, cfg) && Terminated(s) && s[0] == NUL && Step(cfg, t, NUL).Eat?
    ensures !Accepts(run(t, s))
  {
    assert s == [NUL] + [];
    assert Law(run, cfg, t, NUL, []);
  }

  // ---------------------------------------------------------------- comments

  /** t' is t with another buffer, back behind the comment if t was inside one. */
  predicate Passed(t: Tok, t': Tok) {
    t' == Goto(t.(pb := t'.pb), EatWs)
  }

  /** Stars being read in pairs, the text of a comment does not end it. */
  lemma {:induction false} ReadInside(cfg: Config, run: Runner, t: Tok, body: string, rest: string) returns (t': Tok)
    requires Runs(run, cfg) && Top(t).state == Comment && Paired(body)
    ensures t' == t.(pb := t'.pb) && run(t, body + rest) == run(t', rest)
    decreases |body|
  {
    if body == [] {
      t' := t;
      assert body + rest == rest;
    } else if body[0] == '*' {
      var t1 := Goto(Append(t, "*"), CommentEnd);
      assert body + rest == ['*'] + ([body[1]] + (body[2..] + rest));
      ExecEat(cfg, run, t, '*', [body[1]] + (body[2..] + rest), t1);
      var t2 := Goto(Append(t1, [body[1]]), Comment);
      ExecEat(cfg, run, t1, body[1], body[2..] + rest, t2);
      t' := ReadInside(cfg, run, t2, body[2..], rest);
    } else {
      assert body + rest == [body[0]] + (body[1..] + rest);
      ExecEat(cfg, run, t, body[0], body[1..] + rest, Append(t, [body[0]]));
      t' := ReadInside(cfg, run, Append(t, [body[0]]), body[1..], rest);
    }
  }

  lemma ReadBlock(cfg: Config, run: Runner, t: Tok, body: string, rest: string) returns (t': Tok)
    requires Runs(run, cfg) && Top(t).state == Comment && Paired(body)
    ensures Passed(t, t') && run(t, body + ("*/" + rest)) == run(t', rest)
  {
    var t1 := ReadInside(cfg, run, t, body, "*/" + rest);
    var t2 := Goto(Append(t1, "*"), CommentEnd);
    assert "*/" + rest == ['*'] + (['/'] + rest);
    ExecEat(cfg, run, t1, '*', ['/'] + rest, t2);
    t' := Goto(Append(t2, "/"), EatWs);
    ExecEat(cfg, run, t2, '/', rest, t');
  }

  lemma {:induction false} ReadLine(cfg: Config, run: Runner, t: Tok, body: string, rest: string) returns (t': Tok)
    requires Runs(run, cfg) && Top(t).state == CommentEol
    requires forall i :: 0 <= i < |body| ==> body[i] != '\n' && body[i] != NUL
    ensures Passed(t, t') && run(t, body + ("\n" + rest)) == run(t', rest)
    decreases |body|
  {
    var end := "\n" + rest;
    if body == [] {
      t' := Goto(t, EatWs);
      assert body + end == ['\n'] + rest;
      ExecEat(cfg, run, t, '\n', rest, t');
    } else {
      assert body + end == [body[0]] + (body[1..] + end);
      ExecEat(cfg, run, t, body[0], body[1..] + end, Append(t, [body[0]]));
      t' := ReadLine(cfg, run, Append(t, [body[0]]), body[1..], rest);
    }
  }

  /** The state inside a comment that begins with a slash and c. */
  function CommentOpened(t: Tok, c: char): Tok {
    Goto(t.(pb := ['/', c]), if c == '*' then Comment else CommentEol)
  }

  lemma OpenComment(cfg: Config, run: Runner, t: Tok, c: char, rest: string)
    requires Runs(run, cfg) && !cfg.strict && Top(t).state == EatWs && (c == '*' || c == '/')
    ensures run(t, ['/'] + ([c] + rest)) == run(CommentOpened(t, c), rest)
  {
    var t1 := Goto(t.(pb := "/"), CommentStart);
    ExecEat(cfg, run, t, '/', [c] + rest, t1);
    assert "/" + [c] == ['/', c];
    ExecEat(cfg, run, t1, c, rest, CommentOpened(t, c));
  }

  lemma BlockText(body: string, rest: string)
    ensures SpaceText(Block(body)) + rest == ['/'] + (['*'] + (body + ("*/" + rest)))
  {
    RegroupComment('*', body, "*/", rest);
    assert "/*" == ['/', '*'];
  }

  lemma LineText(body: string, rest: string)
    ensures SpaceText(Line(body)) + rest == ['/'] + (['/'] + (body + ("\n" + rest)))
  {
    RegroupComment('/', body, "\n", rest);
    assert "//" == ['/', '/'];
  }

  lemma RegroupComment(c: char, body: string, end: string, rest: string)
    ensures ['/', c] + (body + end) + rest == ['/'] + ([c] + (body + (end + rest)))
  {
    Assoc(body, end, rest);
    Assoc(['/', c], body + end, rest);
    assert ['/', c] == ['/'] + [c];
    Assoc(['/'], [c], body + (end + rest));
  }

  lemma ReadSpace(cfg: Config, run: Runner, t: Tok, p: Space, rest: string) returns (t': Tok)
    requires Runs(run, cfg) && Top(t).state == EatWs && GoodSpace(cfg.strict, p)
    ensures Passed(t, t') && run(t, SpaceText(p) + rest) == run(t', rest)
  {
    match p {
      case Char(c) =>
        SpaceCodes(c);
        ExecEat(cfg, run, t, c, rest, t);
        t' := t;
      case Block(body) =>
        BlockText(body, rest);
        OpenComment(cfg, run, t, '*', body + ("*/" + rest));
        t' := ReadBlock(cfg, run, CommentOpened(t, '*'), body, rest);
      case Line(body) =>
        LineText(body, rest);
        OpenComment(cfg, run, t, '/', body + ("\n" + rest));
        t' := ReadLine(cfg, run, CommentOpened(t, '/'), body, rest);
    }
  }

  /** Everything between two tokens is passed over. */
  lemma {:induction false} ReadGap(cfg: Config, run: Runner, t: Tok, gap: Spaces, rest: string) returns (t': Tok)
    requires Runs(run, cfg) && Top(t).state == EatWs && GoodGap(cfg.strict, gap)
    ensures Passed(t, t') && run(t, GapText(gap) + rest) == run(t', rest)
    decreases |gap|
  {
    if gap == [] {
      t' := t;
      assert GapText(gap) + rest == rest;
    } else {
      Assoc(SpaceText(gap[0]), GapText(gap[1..]), rest);
      var t1 := ReadSpace(cfg, run, t, gap[0], GapText(gap[1..]) + rest);
      t' := ReadGap(cfg, run, t1, gap[1..], rest);
    }
  }

  /** Whatever follows a token begins like this. */
  lemma GapStarts(cfg: Config, gap: Spaces, c: char, tail: string)
    requires GoodGap(cfg.strict, gap)
    ensures var s := GapText(gap) + ([c] + tail);
      s != [] && (s[0] == c || IsWs(s[0]) || (!cfg.strict && s[0] == '/'))
  {
    if gap != [] {
      var s := GapText(gap) + ([c] + tail);
      assert GoodSpace(cfg.strict, gap[0]);
      assert s[0] == SpaceText(gap[0])[0];
      SpaceCodes(s[0]);
    }
  }

  // ---------------------------------------------------------------- nothing else is passed over

  lemma {:induction false} FindBlock(cfg: Config, run: Runner, t: Tok, s: string) returns (body: string, rest: string)
    requires Runs(run, cfg) && Top(t).state == Comment && Terminated(s) && Accepts(run(t, s))
    ensures Paired(body) && s == body + ("*/" + rest) && Terminated(rest)
    decreases |s|
  {
    if s[0] == NUL { NulFails(cfg, run, t, s); }
    Behind(s);
    if s[0] != '*' {
      ExecEat(cfg, run, t, s[0], s[1..], Append(t, [s[0]]));
      var body1, rest1 := FindBlock(cfg, run, Append(t, [s[0]]), s[1..]);
      body, rest := [s[0]] + body1, rest1;
      Assoc([s[0]], body1, "*/" + rest);
    } else {
      BehindTwo(s);
      var t2 := FindPair(cfg, run, t, s, s[1], s[2..]);
      if s[1] == '/' {
        body, rest := [], s[2..];
      } else {
        var body1, rest1 := FindBlock(cfg, run, t2, s[2..]);
        body, rest := ['*', s[1]] + body1, rest1;
        PairFound(s[1], body1, "*/" + rest);
      }
    }
  }

  lemma PairFound(c: char, body: string, tail: string)
    requires Paired(body) && c != '/' && c != NUL
    ensures Paired(['*', c] + body) && ['*'] + ([c] + (body + tail)) == ['*', c] + body + tail
  {
    var b := ['*', c] + body;
    assert b[0] == '*' && b[1] == c && b[2..] == body;
    Assoc(['*', c], body, tail);
    PairText(c, body + tail);
  }

  lemma PairText(c: char, tail: string)
    ensures ['*'] + ([c] + tail) == ['*', c] + tail
  {
  }

  /** A star in a comment and the character behind it. */
  lemma FindPair(cfg: Config, run: Runner, t: Tok, s: string, c: char, tail: string) returns (t2: Tok)
    requires Runs(run, cfg) && Top(t).state == Comment && Terminated(s) && Accepts(run(t, s))
    requires s == ['*'] + ([c] + tail)
    ensures c != NUL && (c != '/' ==> Top(t2).state == Comment && run(t, s) == run(t2, tail))
  {
    var t1 := Goto(Append(t, "*"), CommentEnd);
    ExecEat(cfg, run, t, '*', [c] + tail, t1);
    if c == NUL {
      assert s[1..] == [c] + tail;
      NulFails(cfg, run, t1, [c] + tail);
    }
    t2 := Goto(Append(t1, [c]), if c == '/' then EatWs else Comment);
    ExecEat(cfg, run, t1, c, tail, t2);
  }

  lemma {:induction false} FindLine(cfg: Config, run: Runner, t: Tok, s: string) returns (body: string, rest: string)
    requires Runs(run, cfg) && Top(t).state == CommentEol && Terminated(s) && Accepts(run(t, s))
    ensures forall i :: 0 <= i < |body| ==> body[i] != '\n' && body[i] != NUL
    ensures s == body + ("\n" + rest) && Terminated(rest)
    decreases |s|
  {
    if s[0] == NUL { NulFails(cfg, run, t, s); }
    Behind(s);
    if s[0] == '\n' {
      body, rest := [], s[1..];
    } else {
      ExecEat(cfg, run, t, s[0], s[1..], Append(t, [s[0]]));
      var body1, rest1 := FindLine(cfg, run, Append(t, [s[0]]), s[1..]);
      body, rest := [s[0]] + body1, rest1;
      Assoc([s[0]], body1, "\n" + rest);
    }
  }

  lemma BadComment(cfg: Config, run: Runner, t: Tok, c: char, tail: string)
    requires Runs(run, cfg) && !cfg.strict && Top(t).state == EatWs && c != '*' && c != '/'
    ensures !Accepts(run(t, ['/'] + ([c] + tail)))
  {
    var t1 := Goto(t.(pb := "/"), CommentStart);
    ExecEat(cfg, run, t, '/', [c] + tail, t1);
    StopFails(cfg, run, t1, c, tail);
  }

  lemma FindComment(cfg: Config, run: Runner, t: Tok, c: char, tail: string) returns (p: Space, rest: string)
    requires Runs(run, cfg) && !cfg.strict && Top(t).state == EatWs && Terminated(tail)
    requires (c == '*' || c == '/') && Accepts(run(t, ['/'] + ([c] + tail)))
    ensures GoodSpace(false, p) && ['/'] + ([c] + tail) == SpaceText(p) + rest && Terminated(rest)
  {
    OpenComment(cfg, run, t, c, tail);
    if c == '*' {
      var body, rest1 := FindBlock(cfg, run, CommentOpened(t, c), tail);
      p, rest := Block(body), rest1;
      BlockText(body, rest);
    } else {
      var body, rest1 := FindLine(cfg, run, CommentOpened(t, c), tail);
      p, rest := Line(body), rest1;
      LineText(body, rest);
    }
  }

  lemma BehindTwo(s: string)
    requires Terminated(s) && s[0] != NUL
    ensures |s| > 1 && s == [s[0]] + ([s[1]] + s[2..]) && (s[1] != NUL ==> Terminated(s[2..]))
  {
  }

  lemma FindSpace(cfg: Config, run: Runner, t: Tok, s: string) returns (p: Space, t1: Tok, rest: string)
    requires Runs(run, cfg) && Top(t).state == EatWs && Terminated(s) && Accepts(run(t, s))
    requires !Solid(cfg, s[0])
    ensures GoodSpace(cfg.strict, p) && s == SpaceText(p) + rest && Terminated(rest) && |rest| < |s|
    ensures Passed(t, t1) && run(t, s) == run(t1, rest)
  {
    if IsWs(s[0]) {
      Behind(s);
      p, rest := Char(s[0]), s[1..];
      SpaceCodes(s[0]);
    } else {
      BehindTwo(s);
      if s[1] != '*' && s[1] != '/' { BadComment(cfg, run, t, s[1], s[2..]); }
      p, rest := FindComment(cfg, run, t, s[1], s[2..]);
    }
    t1 := ReadSpace(cfg, run, t, p, rest);
  }

  /** What is passed over before the next token is space of the grammar. */
  lemma {:induction false} FindGap(cfg: Config, run: Runner, t: Tok, s: string)
    returns (gap: Spaces, t': Tok, c: char, tail: string)
    requires Runs(run, cfg) && Top(t).state == EatWs && Terminated(s) && Accepts(run(t, s))
    ensures GoodGap(cfg.strict, gap) && s == GapText(gap) + ([c] + tail) && Terminated([c] + tail)
    ensures Solid(cfg, c) && Passed(t, t') && run(t, s) == run(t', [c] + tail) && |tail| < |s|
    decreases |s|
  {
    if Solid(cfg, s[0]) {
      gap, t', c, tail := [], t, s[0], s[1..];
      NoGap(s);
    } else {
      var p, t1, rest := FindSpace(cfg, run, t, s);
      var gap1, t2, c2, tail2 := FindGap(cfg, run, t1, rest);
      gap, t', c, tail := [p] + gap1, t2, c2, tail2;
      MoreGap(cfg.strict, p, gap1, [c] + tail);
    }
  }

  lemma NoGap(s: string)
    requires s != []
    ensures s == [s[0]] + s[1..] && s == GapText([]) + ([s[0]] + s[1..])
  {
  }

  lemma MoreGap(strict: bool, p: Space, gap: Spaces, tail: string)
    requires GoodSpace(strict, p) && GoodGap(strict, gap)
    ensures GoodGap(strict, [p] + gap) && SpaceText(p) + (GapText(gap) + tail) == GapText([p] + gap) + tail
  {
    assert ([p] + gap)[0] == p && ([p] + gap)[1..] == gap;
    Assoc(SpaceText(p), GapText(gap), tail);
  }
}
