/** Every text of the grammar is read as what it means. */
module JsonAccepts {
  import opened Arith
  import opened Options
  import opened Seqs
  import opened JsonValues
  import opened JsonTokener
  import opened JsonRoundTrip
  import opened JsonContainers
  import opened JsonTheorems
  import opened JsonEscapes
  import opened JsonStrings
  import opened JsonGrammar
  import opened JsonNumbers
  import opened JsonSpaces

  // ---------------------------------------------------------------- words

  lemma SmallIsLower(c: char)
    ensures SmallLetter(c) == Lower(c)
  {
  }

  lemma SpellingIff(word: string, w: string)
    ensures Spelling(false, word, w) <==> SmallLetters(w) == SmallLetters(word)
    ensures Spelling(true, word, w) <==> w == word
  {
    forall i | 0 <= i < |w| ensures SmallLetters(w)[i] == Lower(w[i]) { SmallIsLower(w[i]); }
    forall i | 0 <= i < |word| ensures SmallLetters(word)[i] == Lower(word[i]) { SmallIsLower(word[i]); }
    if SmallLetters(w) == SmallLetters(word) {
      assert |w| == |word|;
      forall i | 0 <= i < |word| ensures Lower(word[i]) == Lower(w[i]) {
        assert SmallLetters(w)[i] == SmallLetters(word)[i];
      }
    }
    if Spelling(false, word, w) {
      forall i | 0 <= i < |word| ensures SmallLetters(w)[i] == SmallLetters(word)[i] {
        assert Lower(word[i]) == Lower(w[i]);
      }
    }
  }

  lemma SmallWords()
    ensures SmallLetters("null") == "null" && SmallLetters("true") == "true" && SmallLetters("false") == "false"
    ensures SmallLetters("NaN") == "nan" && SmallLetters("Infinity") == "infinity"
    ensures SmallLetters("-Infinity") == "-infinity"
  {
  }

  /** A spelling of a word means what the word means. */
  lemma SpellingMeans(strict: bool, word: string, w: string)
    requires Spelling(strict, word, w) && word in {"null", "true", "false", "NaN", "Infinity", "-Infinity"}
    ensures GoodWord(strict, w) && WordMeans(w) == WordMeans(word)
  {
    SpellingIff(word, w);
    SmallWords();
  }

  /** Every good word is a spelling of one of the six. */
  lemma WordOf(strict: bool, w: string) returns (word: string)
    requires GoodWord(strict, w)
    ensures word in {"null", "true", "false", "NaN", "Infinity", "-Infinity"} && Spelling(strict, word, w)
  {
    SmallWords();
    word := w;
    if !strict {
      var small := SmallLetters(w);
      word := if small == "nan" then "NaN" else if small == "infinity" then "Infinity"
              else if small == "-infinity" then "-Infinity" else small;
    }
    SpellingIff(word, w);
  }

  lemma MinusSpelling(strict: bool, w: string)
    requires |w| > 0
    ensures Spelling(strict, "-Infinity", w) <==> w[0] == '-' && Spelling(strict, "Infinity", w[1..])
  {
    var word, tail := "-Infinity", w[1..];
    assert word[1..] == "Infinity";
    forall i | 0 < i < |word| ensures word[i] == "Infinity"[i - 1] { assert word[1..][i - 1] == word[i]; }
    assert Lower(w[0]) == Lower('-') <==> w[0] == '-';
    if Spelling(strict, word, w) {
      forall i | 0 <= i < 8 ensures "Infinity"[i] == tail[i] || (!strict && Lower("Infinity"[i]) == Lower(tail[i])) {
        assert word[i + 1] == "Infinity"[i] && w[i + 1] == tail[i];
      }
    }
    if w[0] == '-' && Spelling(strict, "Infinity", tail) {
      forall i | 0 <= i < 9 ensures word[i] == w[i] || (!strict && Lower(word[i]) == Lower(w[i])) {
        if i > 0 { assert word[i] == "Infinity"[i - 1] && w[i] == tail[i - 1]; }
      }
    }
  }

  lemma ReadWordTree(cfg: Config, run: Runner, t: Tok, w: string, rest: string) returns (t': Tok)
    requires Runs(run, cfg) && Ready(t) && GoodWord(cfg.strict, w) && rest != []
    ensures Landed(t, t', WordMeans(w)) && run(t, w + rest) == run(t', rest)
  {
    var word := WordOf(cfg.strict, w);
    SpellingMeans(cfg.strict, word, w);
    SmallWords();
    if word == "Infinity" {
      t' := ReadInfinity(cfg, run, t, false, w, rest);
      assert "" + (w + rest) == w + rest;
    } else if word == "-Infinity" {
      MinusSpelling(cfg.strict, w);
      t' := ReadInfinity(cfg, run, t, true, w[1..], rest);
      assert "-" + (w[1..] + rest) == w + rest;
    } else {
      t' := ReadKeyword(cfg, run, t, word, w, if word == "null" || word == "NaN" then NullWord else Boolean, rest);
    }
  }

  // ---------------------------------------------------------------- scalars

  lemma ReadLiteral(cfg: Config, run: Runner, t: Tok, quote: char, ps: seq<Piece>, rest: string) returns (t': Tok)
    requires Runs(run, cfg) && Ready(t) && Good(cfg, Literal(quote, ps))
    ensures Landed(t, t', Str(Machine(ps, 0)))
    ensures run(t, [quote] + (Text(ps) + ([quote] + rest))) == run(t', rest)
  {
    var tail := Text(ps) + ([quote] + rest);
    ReadStart(cfg, run, t, quote, tail);
    var t1 := Goto(t.(pb := "", quote := quote), StringBody);
    ExecEat(cfg, run, Goto(t, Start), quote, tail, t1);
    var t2 := ReadPieces(cfg, run, t1, ps, rest);
    assert "" + Machine(ps, 0) == Machine(ps, 0);
    t' := Complete(t2, Str(t2.pb));
    CloseString(cfg, run, t2, rest);
  }

  /** What may follow a value. */
  predicate EndsValue(rest: string, levels: nat) {
    && rest != []
    && (IsWs(rest[0]) || rest[0] == '/' || if levels <= 1 then rest[0] == NUL else Closes(rest[0]))
  }

  lemma EndsEnds(s: string, rest: string, levels: nat)
    requires NumberText(s) && EndsValue(rest, levels)
    ensures EndsAt(s, rest[0], levels)
  {
  }

  lemma ReadSimple(cfg: Config, run: Runner, t: Tok, v: Tree, rest: string) returns (t': Tok)
    requires Runs(run, cfg) && Ready(t) && Good(cfg, v) && EndsValue(rest, Levels(t))
    requires v.Word? || v.Num? || v.Literal?
    ensures Landed(t, t', Means(v)) && run(t, TreeText(v) + rest) == run(t', rest)
  {
    match v {
      case Word(w) => t' := ReadWordTree(cfg, run, t, w, rest);
      case Num(text, cut) =>
        EndsEnds(text + cut, rest, Levels(t));
        t' := ReadNumber(cfg, run, t, text, cut, rest);
      case Literal(quote, ps) =>
        Assoc([quote], Text(ps) + [quote], rest);
        Assoc(Text(ps), [quote], rest);
        t' := ReadLiteral(cfg, run, t, quote, ps, rest);
    }
  }

  /** No value begins with white space, a comment or a closing bracket. */
  lemma TreeOpens(cfg: Config, v: Tree)
    requires Good(cfg, v)
    ensures TreeText(v) != [] && var c := TreeText(v)[0]; Solid(cfg, c) && c != '/' && c != ']' && c != NUL
  {
    if v.Word? {
      var word := WordOf(cfg.strict, v.w);
      FirstLetter(word, v.w, cfg.strict);
    }
  }

  // ---------------------------------------------------------------- containers

  /** The closing bracket of an empty container, or behind a superfluous comma. */
  lemma ReadClose(cfg: Config, run: Runner, t: Tok, gap: Spaces, close: char, rest: string) returns (t': Tok)
    requires Runs(run, cfg) && Between(t, Top(t).saved, Top(t).current) && GoodGap(cfg.strict, gap)
    requires || (close == ']' && (Top(t).saved == Array || (Top(t).saved == ArrayAfterSep && !cfg.strict)))
             || (close == '}' && (Top(t).saved == FieldStart || (Top(t).saved == FieldStartAfterSep && !cfg.strict)))
    ensures Replaced(t, t', Level(EatWs, Finish, Top(t).current, ""))
    ensures run(t, GapText(gap) + ([close] + rest)) == run(t', rest)
  {
    var t1 := ReadGap(cfg, run, t, gap, [close] + rest);
    Resume(cfg, run, t1, close, rest);
    t' := Then(t1, Finish);
    assert Then(Goto(t1, Top(t1).saved), Finish) == t';
    ExecEat(cfg, run, Goto(t1, Top(t1).saved), close, rest, t');
  }

  /** Empty brackets with space between them. */
  lemma ReadEmpty(cfg: Config, run: Runner, t: Tok, v: Tree, rest: string) returns (t': Tok)
    requires Runs(run, cfg) && Ready(t) && Good(cfg, v) && (v.EmptyList? || v.EmptyRecord?)
    ensures Landed(t, t', Means(v)) && run(t, TreeText(v) + rest) == run(t', rest)
  {
    var open, close := if v.EmptyList? then '[' else '{', if v.EmptyList? then ']' else '}';
    var ws := GapText(v.gap);
    Assoc([open], ws + [close], rest);
    Assoc(ws, [close], rest);
    OpenContainer(cfg, run, t, open, ws + ([close] + rest));
    var t1 := WithTop(t, Level(EatWs, if open == '[' then Array else FieldStart,
                               if open == '[' then Arr([]) else Obj([]), ""));
    t' := ReadClose(cfg, run, t1, v.gap, close, rest);
  }

  /** A container about to read an element, which waits for it in state `wait`. */
  predicate Awaits(t: Tok, wait: State) {
    && Top(t).state == EatWs && Waits(Top(t).saved, wait) && Containing(Top(t).(state := wait))
    && t.high == 0 && t.scan == NotScanning
  }

  /** What follows an element. */
  predicate Closes(c: char) { c == ',' || c == ']' || c == '}' }

  lemma GapEnds(cfg: Config, gap: Spaces, c: char, tail: string)
    requires GoodGap(cfg.strict, gap) && Closes(c)
    ensures EndsValue(GapText(gap) + ([c] + tail), 2) && Solid(cfg, c)
  {
    GapStarts(cfg, gap, c, tail);
  }

  lemma RegroupElement(e: Element, tail: string)
    ensures ElementText(e) + tail == GapText(e.before) + (TreeText(e.value) + (GapText(e.after) + tail))
  {
    Assoc(GapText(e.before), TreeText(e.value) + GapText(e.after), tail);
    Assoc(TreeText(e.value), GapText(e.after), tail);
  }

  /** An element begins on a new level, unless the nesting is too deep. */
  lemma EnterGap(cfg: Config, run: Runner, t: Tok, wait: State, gap: Spaces, p: string, tail: string)
    returns (t2: Tok)
    requires Runs(run, cfg) && Awaits(t, wait) && GoodGap(cfg.strict, gap)
    requires p != [] && Solid(cfg, p[0]) && p[0] != ']' && p[0] != NUL
    ensures var r := run(t, GapText(gap) + (p + tail));
      if Levels(t) < cfg.maxDepth then Over(t, t2, Top(t).(state := wait)) && r == run(t2, p + tail)
      else r.err == Depth
  {
    var t1 := ReadGap(cfg, run, t, gap, p + tail);
    assert p + tail == [p[0]] + (p[1..] + tail) == "" + ([p[0]] + (p[1..] + tail));
    Enter(cfg, run, t1, wait, "", p[0], p[1..] + tail);
    t2 := Entered(t1, wait);
  }

  /** A completed element is added to its container, once the space behind it is over. */
  lemma LeaveGap(cfg: Config, run: Runner, t: Tok, t2: Tok, t3: Tok, l: Level, v: Json, gap: Spaces, c: char,
                 tail: string)
    returns (t4: Tok)
    requires Runs(run, cfg) && Over(t, t2, l) && Landed(t2, t3, v) && Containing(l)
    requires GoodGap(cfg.strict, gap) && Solid(cfg, c)
    ensures Replaced(t, t4, Added(l, v)) && run(t3, GapText(gap) + ([c] + tail)) == run(t4, [c] + tail)
  {
    var t3' := ReadGap(cfg, run, t3, gap, [c] + tail);
    assert "" + ([c] + tail) == [c] + tail;
    t4 := EndElement(cfg, run, t, t2, t3', l, v, "", c, tail);
  }

  /** An element with space around it, up to the separator or bracket behind it. */
  lemma {:induction false} ReadElement(cfg: Config, run: Runner, t: Tok, wait: State, e: Element, c: char,
                                       tail: string)
    returns (t4: Tok)
    requires Runs(run, cfg) && Awaits(t, wait) && GoodElement(cfg, e) && Closes(c)
    requires Levels(t) <= cfg.maxDepth
    ensures var r := run(t, ElementText(e) + ([c] + tail));
      if Levels(t) + 1 + Height(e.value) <= cfg.maxDepth
      then Replaced(t, t4, Added(Top(t).(state := wait), Means(e.value))) && r == run(t4, [c] + tail)
      else r.err == Depth
    decreases e, 2
  {
    var end := [c] + tail;
    TreeOpens(cfg, e.value);
    RegroupElement(e, end);
    var t2 := EnterGap(cfg, run, t, wait, e.before, TreeText(e.value), GapText(e.after) + end);
    t4 := t;
    if Levels(t) < cfg.maxDepth {
      GapEnds(cfg, e.after, c, tail);
      var t3 := ReadTree(cfg, run, t2, e.value, GapText(e.after) + end);
      if Levels(t2) + Height(e.value) <= cfg.maxDepth {
        t4 := LeaveGap(cfg, run, t, t2, t3, Top(t).(state := wait), Means(e.value), e.after, c, tail);
      }
    }
  }

  /** The end of a container that is not empty. */
  lemma ReadEnd(cfg: Config, run: Runner, t: Tok, extra: Option<Spaces>, close: char, rest: string)
    returns (t': Tok)
    requires Runs(run, cfg) && Between(t, Top(t).saved, Top(t).current) && GoodExtra(cfg.strict, extra)
    requires (close == ']' && Top(t).saved == ArraySep) || (close == '}' && Top(t).saved == ObjectSep)
    ensures Replaced(t, t', Level(EatWs, Finish, Top(t).current, ""))
    ensures run(t, CloseText(extra, close) + rest) == run(t', rest)
  {
    match extra {
      case None =>
        assert "" + ([close] + rest) == [close] + rest;
        CloseContainer(cfg, run, t, "", close, rest);
        t' := Then(t, Finish);
      case Some(gap) =>
        var after := if close == ']' then ArrayAfterSep else FieldStartAfterSep;
        Assoc([','], GapText(gap) + [close], rest);
        Assoc(GapText(gap), [close], rest);
        Comma(cfg, run, t, after, GapText(gap) + ([close] + rest));
        t' := ReadClose(cfg, run, Then(t, after), gap, close, rest);
    }
  }

  lemma CloseStarts(extra: Option<Spaces>, close: char, rest: string) returns (c: char, tail: string)
    ensures CloseText(extra, close) + rest == [c] + tail && (c == close || c == ',')
  {
    var s := CloseText(extra, close) + rest;
    c, tail := s[0], s[1..];
  }

  lemma {:induction false} RegroupItems(items: seq<Element>, extra: Option<Spaces>, rest: string)
    requires items != []
    ensures ItemsText(items, extra) + rest == ElementText(items[0]) +
      if |items| == 1 then CloseText(extra, ']') + rest else [','] + (ItemsText(items[1..], extra) + rest)
  {
    var e := ElementText(items[0]);
    if |items| == 1 {
      Assoc(e, CloseText(extra, ']'), rest);
    } else {
      Assoc(e, [','] + ItemsText(items[1..], extra), rest);
      Assoc([','], ItemsText(items[1..], extra), rest);
    }
  }

  /** The container v has been read to its end, or its nesting does not fit. */
  ghost predicate ContainerRead(cfg: Config, run: Runner, t: Tok, s: string, height: nat, v: Json, rest: string,
                                t': Tok)
  {
    if Levels(t) + height <= cfg.maxDepth
    then Replaced(t, t', Level(EatWs, Finish, v, "")) && run(t, s) == run(t', rest)
    else run(t, s).err == Depth
  }

  /** One element has been read, and then the others. */
  lemma {:induction false} OneAndMore(cfg: Config, run: Runner, t: Tok, s: string, first: nat, t1: Tok, s1: string,
                                      more: nat, v: Json, rest: string, t': Tok)
    requires if Levels(t) + first <= cfg.maxDepth
             then && t1.below == t.below && run(t, s) == run(t1, s1)
                  && ContainerRead(cfg, run, t1, s1, more, v, rest, t')
             else run(t, s).err == Depth
    ensures ContainerRead(cfg, run, t, s, Max(first, more), v, rest, t')
  {
  }

  /** The last element and the end of the array. */
  lemma {:induction false} ReadLastItem(cfg: Config, run: Runner, t: Tok, s: State, done: seq<Json>, e: Element,
                                        extra: Option<Spaces>, rest: string)
    returns (t': Tok)
    requires Runs(run, cfg) && Between(t, s, Arr(done)) && (s == Array || s == ArrayAfterSep)
    requires GoodElement(cfg, e) && GoodExtra(cfg.strict, extra) && Levels(t) <= cfg.maxDepth
    ensures ContainerRead(cfg, run, t, ElementText(e) + (CloseText(extra, ']') + rest), 1 + Height(e.value),
                          Arr(done + [Means(e.value)]), rest, t')
    decreases e, 3
  {
    var c, tail := CloseStarts(extra, ']', rest);
    t' := ReadElement(cfg, run, t, ArrayAdd, e, c, tail);
    if Levels(t) + 1 + Height(e.value) <= cfg.maxDepth {
      t' := ReadEnd(cfg, run, t', extra, ']', rest);
    }
  }

  /** An element and the comma behind it. */
  lemma {:induction false} ReadItemComma(cfg: Config, run: Runner, t: Tok, s: State, done: seq<Json>, e: Element,
                                         tail: string)
    returns (t': Tok)
    requires Runs(run, cfg) && Between(t, s, Arr(done)) && (s == Array || s == ArrayAfterSep)
    requires GoodElement(cfg, e) && Levels(t) <= cfg.maxDepth
    ensures var r := run(t, ElementText(e) + ([','] + tail));
      if Levels(t) + 1 + Height(e.value) <= cfg.maxDepth then
        Replaced(t, t', Level(EatWs, ArrayAfterSep, Arr(done + [Means(e.value)]), "")) && r == run(t', tail)
      else r.err == Depth
    decreases e, 3
  {
    t' := ReadElement(cfg, run, t, ArrayAdd, e, ',', tail);
    if Levels(t) + 1 + Height(e.value) <= cfg.maxDepth {
      Comma(cfg, run, t', ArrayAfterSep, tail);
      t' := Then(t', ArrayAfterSep);
    }
  }

  lemma {:induction false} ItemsUnfold(done: seq<Json>, items: seq<Element>)
    requires items != []
    ensures ItemsHeight(items) ==
      if |items| == 1 then 1 + Height(items[0].value) else Max(1 + Height(items[0].value), ItemsHeight(items[1..]))
    ensures done + ItemsMean(items) ==
      if |items| == 1 then done + [Means(items[0].value)]
      else done + [Means(items[0].value)] + ItemsMean(items[1..])
  {
    Assoc(done, [Means(items[0].value)], ItemsMean(items[1..]));
  }

  lemma {:induction false} ReadElements(cfg: Config, run: Runner, t: Tok, s: State, done: seq<Json>,
                                        items: seq<Element>, extra: Option<Spaces>, rest: string)
    returns (t': Tok)
    requires Runs(run, cfg) && Between(t, s, Arr(done)) && (s == Array || s == ArrayAfterSep)
    requires items != [] && GoodItems(cfg, items) && GoodExtra(cfg.strict, extra) && Levels(t) <= cfg.maxDepth
    ensures ContainerRead(cfg, run, t, ItemsText(items, extra) + rest, ItemsHeight(items),
                          Arr(done + ItemsMean(items)), rest, t')
    decreases items, 0
  {
    var e, more := items[0], items[1..];
    ItemsUnfold(done, items);
    RegroupItems(items, extra, rest);
    if |items| == 1 {
      t' := ReadLastItem(cfg, run, t, s, done, e, extra, rest);
    } else {
      var input, tail := ItemsText(items, extra) + rest, ItemsText(more, extra) + rest;
      var t1 := ReadItemComma(cfg, run, t, s, done, e, tail);
      t' := t1;
      if Levels(t) + 1 + Height(e.value) <= cfg.maxDepth {
        t' := ReadElements(cfg, run, t1, ArrayAfterSep, done + [Means(e.value)], more, extra, rest);
      }
      OneAndMore(cfg, run, t, input, 1 + Height(e.value), t1, tail, ItemsHeight(more),
                 Arr(done + [Means(e.value)] + ItemsMean(more)), rest, t');
    }
  }

  // ---------------------------------------------------------------- objects

  lemma EndQuoted(cfg: Config, run: Runner, t: Tok, v: Json, name: seq<Piece>, rest: string) returns (t': Tok)
    requires Runs(run, cfg) && InText(t) && Top(t).state == FieldName && Top(t).current == v
    requires Valid(name) && t.pb == Machine(name, 0)
    ensures Replaced(t, t', Level(EatWs, FieldEnd, v, UpToNul(LiteralMeans(name))))
    ensures run(t, [t.quote] + rest) == run(t', rest)
  {
    CStringIs(t.pb);
    t' := WithTop(t, Level(EatWs, FieldEnd, v, CString(t.pb)));
    CloseName(cfg, run, t, v, CString(t.pb), rest);
  }

  /** The name of a member, in either kind of quotes. */
  lemma ReadQuoted(cfg: Config, run: Runner, t: Tok, s: State, v: Json, m: Member, rest: string)
    returns (t': Tok)
    requires Runs(run, cfg) && Between(t, s, v) && (s == FieldStart || s == FieldStartAfterSep)
    requires GoodName(cfg.strict, m)
    ensures Replaced(t, t', Level(EatWs, FieldEnd, v, UpToNul(LiteralMeans(m.name))))
    ensures run(t, [m.quote] + (Text(m.name) + ([m.quote] + rest))) == run(t', rest)
  {
    var tail := Text(m.name) + ([m.quote] + rest);
    Resume(cfg, run, t, m.quote, tail);
    var t1 := Goto(t.(quote := m.quote, pb := ""), FieldName);
    ExecEat(cfg, run, Goto(t, s), m.quote, tail, t1);
    var t2 := ReadPieces(cfg, run, t1, m.name, rest);
    assert "" + Machine(m.name, 0) == Machine(m.name, 0);
    t' := EndQuoted(cfg, run, t2, v, m.name, rest);
  }

  lemma RegroupMember(m: Member, rest: string)
    ensures NameText(m) + rest ==
      GapText(m.before) + ([m.quote] + (Text(m.name) + ([m.quote] + (GapText(m.mid) + ([':'] + rest)))))
  {
    var q, n, mid := [m.quote], Text(m.name), GapText(m.mid);
    Assoc(GapText(m.before), q + (n + (q + (mid + [':']))), rest);
    Assoc(q, n + (q + (mid + [':'])), rest);
    Assoc(n, q + (mid + [':']), rest);
    Assoc(q, mid + [':'], rest);
    Assoc(mid, [':'], rest);
  }

  /** A member up to its colon. */
  lemma ReadMemberName(cfg: Config, run: Runner, t: Tok, s: State, v: Json, m: Member, rest: string)
    returns (t': Tok)
    requires Runs(run, cfg) && Between(t, s, v) && (s == FieldStart || s == FieldStartAfterSep)
    requires GoodName(cfg.strict, m)
    ensures Replaced(t, t', Level(EatWs, ObjectValue, v, UpToNul(LiteralMeans(m.name))))
    ensures run(t, NameText(m) + rest) == run(t', rest)
  {
    RegroupMember(m, rest);
    var tail := GapText(m.mid) + ([':'] + rest);
    var t1 := ReadGap(cfg, run, t, m.before, [m.quote] + (Text(m.name) + ([m.quote] + tail)));
    var t2 := ReadQuoted(cfg, run, t1, s, v, m, tail);
    var t3 := ReadGap(cfg, run, t2, m.mid, [':'] + rest);
    ReadColon(cfg, run, t3, rest);
    t' := Then(t3, ObjectValue);
  }

  lemma {:induction false} RegroupMembers(members: seq<Member>, extra: Option<Spaces>, rest: string)
    requires members != []
    ensures MembersText(members, extra) + rest == NameText(members[0]) + (ElementText(members[0].item) +
      if |members| == 1 then CloseText(extra, '}') + rest else [','] + (MembersText(members[1..], extra) + rest))
  {
    var n, e := NameText(members[0]), ElementText(members[0].item);
    if |members| == 1 {
      Assoc(n, e + CloseText(extra, '}'), rest);
      Assoc(e, CloseText(extra, '}'), rest);
    } else {
      var more := MembersText(members[1..], extra);
      Assoc(n, e + ([','] + more), rest);
      Assoc(e, [','] + more, rest);
      Assoc([','], more, rest);
    }
  }

  /** A member up to the separator or bracket behind it. */
  lemma {:induction false} ReadMember(cfg: Config, run: Runner, t: Tok, s: State, done: seq<Field>, m: Member,
                                      c: char, tail: string)
    returns (t': Tok)
    requires Runs(run, cfg) && Between(t, s, Obj(done)) && (s == FieldStart || s == FieldStartAfterSep)
    requires GoodName(cfg.strict, m) && GoodElement(cfg, m.item) && Closes(c) && Levels(t) <= cfg.maxDepth
    ensures var r := run(t, NameText(m) + (ElementText(m.item) + ([c] + tail)));
      if Levels(t) + 1 + Height(m.item.value) <= cfg.maxDepth then
        && Replaced(t, t', Level(EatWs, ObjectSep, Obj(WithMember(done, m)), ""))
        && r == run(t', [c] + tail)
      else r.err == Depth
    decreases m, 3
  {
    var t1 := ReadMemberName(cfg, run, t, s, Obj(done), m, ElementText(m.item) + ([c] + tail));
    t' := ReadElement(cfg, run, t1, ObjectValueAdd, m.item, c, tail);
  }

  /** The last member and the end of the object. */
  lemma {:induction false} ReadLastMember(cfg: Config, run: Runner, t: Tok, s: State, done: seq<Field>, m: Member,
                                          extra: Option<Spaces>, rest: string)
    returns (t': Tok)
    requires Runs(run, cfg) && Between(t, s, Obj(done)) && (s == FieldStart || s == FieldStartAfterSep)
    requires GoodName(cfg.strict, m) && GoodElement(cfg, m.item) && GoodExtra(cfg.strict, extra)
    requires Levels(t) <= cfg.maxDepth
    ensures ContainerRead(cfg, run, t, NameText(m) + (ElementText(m.item) + (CloseText(extra, '}') + rest)),
                          1 + Height(m.item.value), Obj(WithMember(done, m)), rest, t')
    decreases m, 4
  {
    var c, tail := CloseStarts(extra, '}', rest);
    t' := ReadMember(cfg, run, t, s, done, m, c, tail);
    if Levels(t) + 1 + Height(m.item.value) <= cfg.maxDepth {
      t' := ReadEnd(cfg, run, t', extra, '}', rest);
    }
  }

  /** A member and the comma behind it. */
  lemma {:induction false} ReadMemberComma(cfg: Config, run: Runner, t: Tok, s: State, done: seq<Field>,
                                           m: Member, tail: string)
    returns (t': Tok)
    requires Runs(run, cfg) && Between(t, s, Obj(done)) && (s == FieldStart || s == FieldStartAfterSep)
    requires GoodName(cfg.strict, m) && GoodElement(cfg, m.item) && Levels(t) <= cfg.maxDepth
    ensures var r := run(t, NameText(m) + (ElementText(m.item) + ([','] + tail)));
      if Levels(t) + 1 + Height(m.item.value) <= cfg.maxDepth then
        Replaced(t, t', Level(EatWs, FieldStartAfterSep, Obj(WithMember(done, m)), "")) && r == run(t', tail)
      else r.err == Depth
    decreases m, 4
  {
    t' := ReadMember(cfg, run, t, s, done, m, ',', tail);
    if Levels(t) + 1 + Height(m.item.value) <= cfg.maxDepth {
      Comma(cfg, run, t', FieldStartAfterSep, tail);
      t' := Then(t', FieldStartAfterSep);
    }
  }

  lemma {:induction false} MembersUnfold(done: seq<Field>, members: seq<Member>)
    requires members != []
    ensures var h := 1 + Height(members[0].item.value);
      MembersHeight(members) == if |members| == 1 then h else Max(h, MembersHeight(members[1..]))
    ensures MembersMean(done, members) ==
      if |members| == 1 then WithMember(done, members[0])
      else MembersMean(WithMember(done, members[0]), members[1..])
  {
  }

  lemma {:induction false} ReadMembers(cfg: Config, run: Runner, t: Tok, s: State, done: seq<Field>,
                                       members: seq<Member>, extra: Option<Spaces>, rest: string)
    returns (t': Tok)
    requires Runs(run, cfg) && Between(t, s, Obj(done)) && (s == FieldStart || s == FieldStartAfterSep)
    requires members != [] && GoodMembers(cfg, members) && GoodExtra(cfg.strict, extra)
    requires Levels(t) <= cfg.maxDepth
    ensures ContainerRead(cfg, run, t, MembersText(members, extra) + rest, MembersHeight(members),
                          Obj(MembersMean(done, members)), rest, t')
    decreases members, 0
  {
    var m, more := members[0], members[1..];
    MembersUnfold(done, members);
    RegroupMembers(members, extra, rest);
    if |members| == 1 {
      t' := ReadLastMember(cfg, run, t, s, done, m, extra, rest);
    } else {
      var input, tail := MembersText(members, extra) + rest, MembersText(more, extra) + rest;
      var t1 := ReadMemberComma(cfg, run, t, s, done, m, tail);
      t' := t1;
      if Levels(t) + 1 + Height(m.item.value) <= cfg.maxDepth {
        t' := ReadMembers(cfg, run, t1, FieldStartAfterSep, WithMember(done, m), more, extra, rest);
      }
      OneAndMore(cfg, run, t, input, 1 + Height(m.item.value), t1, tail, MembersHeight(more),
                 Obj(MembersMean(WithMember(done, m), more)), rest, t');
    }
  }

  // ---------------------------------------------------------------- whole texts

  /** A value of the grammar is read on any level as what it means, or fails for its depth. */
  lemma {:induction false} ReadTree(cfg: Config, run: Runner, t: Tok, v: Tree, rest: string)
    returns (t': Tok)
    requires Runs(run, cfg) && Ready(t) && Good(cfg, v) && EndsValue(rest, Levels(t))
    requires Levels(t) <= cfg.maxDepth
    ensures var r := run(t, TreeText(v) + rest);
      if Levels(t) + Height(v) <= cfg.maxDepth then Landed(t, t', Means(v)) && r == run(t', rest)
      else r.err == Depth
    decreases v, 1
  {
    match v {
      case List(items, extra) =>
        Assoc(['['], ItemsText(items, extra), rest);
        OpenContainer(cfg, run, t, '[', ItemsText(items, extra) + rest);
        var t1 := WithTop(t, Level(EatWs, Array, Arr([]), ""));
        t' := ReadElements(cfg, run, t1, Array, [], items, extra, rest);
        assert [] + ItemsMean(items) == ItemsMean(items);
      case Record(members, extra) =>
        Assoc(['{'], MembersText(members, extra), rest);
        OpenContainer(cfg, run, t, '{', MembersText(members, extra) + rest);
        var t1 := WithTop(t, Level(EatWs, FieldStart, Obj([]), ""));
        t' := ReadMembers(cfg, run, t1, FieldStart, [], members, extra, rest);
      case EmptyList(_) => t' := ReadEmpty(cfg, run, t, v, rest);
      case EmptyRecord(_) => t' := ReadEmpty(cfg, run, t, v, rest);
      case _ => t' := ReadSimple(cfg, run, t, v, rest);
    }
  }

  /** Every text of the grammar, with any white space and in lenient mode comments around its
      tokens, is accepted by a fresh tokener as the value it means, and refused for its depth
      exactly when its nesting does not fit. */
  lemma GrammarAccepted(cfg: Config, e: Element)
    requires GoodElement(cfg, e) && cfg.maxDepth >= 1
    ensures var r := ParseText(cfg, ElementText(e));
      if Height(e.value) < cfg.maxDepth
      then r.err == Success && r.rest == [NUL] && Levels(r.t) == 1 && Top(r.t).current == Means(e.value)
      else r.err == Depth
  {
    var run, t := Calls(cfg), FreshTok();
    CallsRun(cfg);
    RegroupElement(e, [NUL]);
    var rest := GapText(e.after) + [NUL];
    assert [NUL] == [NUL] + [];
    GapStarts(cfg, e.after, NUL, []);
    var t1 := ReadGap(cfg, run, t, e.before, TreeText(e.value) + rest);
    var t2 := ReadTree(cfg, run, t1, e.value, rest);
    if Height(e.value) < cfg.maxDepth {
      var t3 := ReadGap(cfg, run, t2, e.after, [NUL]);
      FinishTop(cfg, run, t3, Means(e.value));
    }
  }

  /** Every text of RFC 8259 is accepted, if its numbers fit: real ones what the C library
      reads, integers into 64 bits in strict mode. */
  lemma RfcAccepted(cfg: Config, e: Element)
    requires RfcElement(e) && Fits(cfg, e.value) && Height(e.value) < cfg.maxDepth
    ensures var r := ParseText(cfg, ElementText(e));
      r.err == Success && r.rest == [NUL] && Levels(r.t) == 1 && Top(r.t).current == Means(e.value)
  {
    RfcIsGood(cfg, e.value);
    GrammarAccepted(cfg, e);
  }
}
