/** A text that ends inside a comment, told from its characters alone. */
module JsonLexer {
  import opened JsonValues
  import opened JsonTokener
  import opened JsonTheorems
  import opened JsonCalls

  /** Outside of strings and comments, in a string with its quote, behind a backslash in it,
      behind a slash, in a block comment, behind a star in it, in a comment to the end of a
      line. */
  datatype Lex = Outside | Quoted(q: char) | Escaped(q: char) | Slash | Block | Star | Line

  function LexStep(l: Lex, c: char): Lex {
    match l
    case Outside =>
      if c == '"' || c == '\'' then Quoted(c) else if c == '/' then Slash else Outside
    case Quoted(q) => if c == q then Outside else if c == '\\' then Escaped(q) else l
    case Escaped(q) => Quoted(q)
    case Slash => if c == '*' then Block else if c == '/' then Line else Outside
    case Block => if c == '*' then Star else Block
    case Star => if c == '/' then Outside else Block
    case Line => if c == '\n' then Outside else Line
  }

  function Lexed(l: Lex, text: string): Lex
    decreases |text|
  {
    if text == [] then l else Lexed(LexStep(l, text[0]), text[1..])
  }

  predicate EndsInComment(text: string) {
    var l := Lexed(Outside, text);
    l == Block || l == Star || l == Line
  }

  // ---------------------------------------------------------------- the tokener agrees

  predicate EscapeState(s: State) {
    s == StringEscape || s == EscapeUnicode || s == NeedEscape || s == NeedU
  }

  /** The lexical state that a state of the tokener stands for. */
  function LexOf(s: State, quote: char): Lex {
    match s
    case StringBody | FieldName | EscapeUnicode | NeedEscape => Quoted(quote)
    case StringEscape | NeedU => Escaped(quote)
    case CommentStart => Slash
    case Comment => Block
    case CommentEnd => Star
    case CommentEol => Line
    case _ => Outside
  }

  /** As much of a word as was read is a beginning of it. */
  predicate WordRead(strict: bool, s: State, stPos: nat, pb: string) {
    match s
    case NullWord => |pb| == stPos <= 4 && (stPos == 4 ==> !Matches("NaN", pb, 3, strict))
    case Boolean => |pb| == stPos <= 5 && (stPos == 5 ==> !Matches("true", pb, 4, strict))
    case _ => true
  }

  predicate Tracks(strict: bool, t: Tok, l: Lex) {
    && l == LexOf(Top(t).state, t.quote)
    && (if EscapeState(Top(t).state) then Top(t).saved == StringBody || Top(t).saved == FieldName
        else InString(Top(t).state) || LexOf(Top(t).saved, t.quote) == Outside)
    && (InString(Top(t).state) ==> t.quote == '"' || t.quote == '\'')
    && WordRead(strict, Top(t).state, t.stPos, t.pb)
    && Top(t).saved != NullWord && Top(t).saved != Boolean
  }

  /** A character used moves both, one looked at again neither. */
  predicate Follows(strict: bool, m: Move, l: Lex, c: char) {
    && (m.Eat? ==> Tracks(strict, m.t, LexStep(l, c)))
    && (m.Redo? ==> Tracks(strict, m.t, l))
  }

  lemma SpaceTracks(cfg: Config, t: Tok, l: Lex, c: char)
    requires Tracks(cfg.strict, t, l) && Top(t).state == EatWs
    ensures Follows(cfg.strict, Step(cfg, t, c), l, c)
  {
  }

  /** A container opens, a string begins, or a word or number is looked at. */
  predicate ValueBegun(t: Tok, m: Move, c: char) {
    match m
    case Stop(_, _) => true
    case Redo(t1) =>
      && t1.quote == t.quote && IsScalarState(Top(t1).state) && Top(t1).saved == Top(t).saved
      && (Top(t1).state != Number ==> t1.pb == "" && t1.stPos == 0)
    case Eat(t1) =>
      if c == '"' || c == '\'' then t1.quote == c && At(t1, StringBody, Top(t).saved)
      else (c == '{' || c == '[') && (At(t1, EatWs, FieldStart) || At(t1, EatWs, Array))
  }

  lemma StartBegins(cfg: Config, t: Tok, c: char)
    requires Top(t).state == Start
    ensures ValueBegun(t, StepStart(cfg, t, c), c)
  {
  }

  lemma StartTracks(strict: bool, t: Tok, m: Move, l: Lex, c: char)
    requires Tracks(strict, t, l) && Top(t).state == Start && ValueBegun(t, m, c)
    ensures Follows(strict, m, l, c)
  {
  }

  lemma NullIsNotNan(pb: string, strict: bool)
    requires Matches("null", pb, 4, strict)
    ensures !Matches("NaN", pb, 3, strict)
  {
    assert "null"[1] == 'u' && "NaN"[1] == 'a';
  }

  /** A character of a word that is not its end. */
  predicate WordMoved(t: Tok, m: Move, c: char) {
    match m
    case Stop(_, _) => true
    case Redo(t1) => t1.quote == t.quote && At(t1, EatWs, Finish)
    case Eat(t1) => SameLevels(t1, t) && t1.quote == t.quote && t1.pb == t.pb + [c] && t1.stPos == t.stPos + 1
  }

  predicate Letter(c: char) { 'a' <= c <= 'z' || 'A' <= c <= 'Z' }

  lemma NullLetter(cfg: Config, t: Tok, c: char)
    requires WordRead(cfg.strict, NullWord, t.stPos, t.pb)
    ensures WordMoved(t, StepNull(cfg, t, c), c)
    ensures StepNull(cfg, t, c).Eat? ==> Letter(c) && WordRead(cfg.strict, NullWord, t.stPos + 1, t.pb + [c])
  {
    var pb := t.pb + [c];
    assert pb[t.stPos] == c;
    if t.stPos == 3 && Matches("null", pb, 4, cfg.strict) {
      NullIsNotNan(pb, cfg.strict);
    }
  }

  lemma BooleanLetter(cfg: Config, t: Tok, c: char)
    requires WordRead(cfg.strict, Boolean, t.stPos, t.pb)
    ensures WordMoved(t, StepBoolean(cfg, t, c), c)
    ensures StepBoolean(cfg, t, c).Eat? ==> Letter(c) && WordRead(cfg.strict, Boolean, t.stPos + 1, t.pb + [c])
  {
    var pb := t.pb + [c];
    assert pb[t.stPos] == c;
  }

  lemma WordTracks(strict: bool, t: Tok, m: Move, l: Lex, c: char)
    requires Tracks(strict, t, l) && (Top(t).state == NullWord || Top(t).state == Boolean)
    requires WordMoved(t, m, c)
    requires m.Eat? ==> Letter(c) && WordRead(strict, Top(t).state, t.stPos + 1, t.pb + [c])
    ensures Follows(strict, m, l, c)
  {
  }

  lemma NumberTracks(cfg: Config, t: Tok, l: Lex, c: char)
    requires Tracks(cfg.strict, t, l) && Top(t).state == Number
    ensures Follows(cfg.strict, StepNumber(cfg, t, c), l, c)
  {
    NumberMove(cfg, t, c);
    var m := StepNumber(cfg, t, c);
    if m.Eat? {
      assert c != '"' && c != '\'' && c != '/';
    }
  }

  lemma InfinityTracks(cfg: Config, t: Tok, l: Lex, c: char)
    requires Tracks(cfg.strict, t, l) && Top(t).state == Infinity
    ensures Follows(cfg.strict, StepInfinity(cfg, t, c), l, c)
  {
    if StepInfinity(cfg, t, c).Eat? {
      assert c != '"' && c != '\'' && c != '/';
    }
  }

  lemma TextTracks(strict: bool, t: Tok, l: Lex, c: char)
    requires Tracks(strict, t, l) && (Top(t).state == StringBody || Top(t).state == FieldName)
    ensures Follows(strict, StepText(t, c), l, c)
  {
  }

  lemma CommentTracks(strict: bool, t: Tok, l: Lex, c: char)
    requires Tracks(strict, t, l) && InComment(Top(t).state)
    ensures Follows(strict, StepComment(t, c), l, c)
  {
    var m := StepComment(t, c);
    assert m.t.quote == t.quote && Top(m.t).saved == Top(t).saved;
  }

  lemma EscapeTracks(strict: bool, t: Tok, l: Lex, c: char)
    requires Tracks(strict, t, l) && Top(t).state == StringEscape
    ensures Follows(strict, StepEscape(t, c), l, c)
  {
  }

  /** A hex digit leaves the tokener in its string, waiting for more digits, for the second
      half of a pair or for text. */
  predicate HexMoved(t: Tok, m: Move, c: char) {
    match m
    case Stop(_, _) => true
    case Redo(_) => false
    case Eat(t1) =>
      && IsHex(c) && t1.quote == t.quote && Top(t1).saved == Top(t).saved
      && (Top(t1).state == EscapeUnicode || Top(t1).state == NeedEscape || Top(t1).state == Top(t).saved)
  }

  lemma HexMoves(t: Tok, c: char)
    requires Top(t).state == EscapeUnicode
    ensures HexMoved(t, StepUnicode(t, c), c)
  {
    if IsHex(c) && t.stPos >= 3 {
      var t1, saved := t.(ucs := t.ucs + HexAt(c, t.stPos)), Top(t).saved;
      assert At(EscapeDone(t1), saved, saved) || At(EscapeDone(t1), NeedEscape, saved);
    }
  }

  lemma HexTracks(strict: bool, t: Tok, m: Move, l: Lex, c: char)
    requires Tracks(strict, t, l) && Top(t).state == EscapeUnicode && HexMoved(t, m, c)
    ensures Follows(strict, m, l, c)
  {
    if m.Eat? {
      HexInside(t.quote, c);
    }
  }

  lemma HexInside(quote: char, c: char)
    requires IsHex(c) && (quote == '"' || quote == '\'')
    ensures LexStep(Quoted(quote), c) == Quoted(quote)
  {
  }

  lemma NeedTracks(strict: bool, t: Tok, l: Lex, c: char)
    requires Tracks(strict, t, l) && (Top(t).state == NeedEscape || Top(t).state == NeedU)
    ensures Follows(strict, StepUnicode(t, c), l, c)
  {
    var m, saved := StepUnicode(t, c), Top(t).saved;
    assert m.t.quote == t.quote;
    if m.Eat? {
      assert At(m.t, if Top(t).state == NeedEscape then NeedU else EscapeUnicode, saved);
    } else if m.Redo? {
      assert At(m.t, if Top(t).state == NeedEscape then saved else StringEscape, saved);
    }
  }

  /** A name begins, or punctuation is used, or a new level is begun. */
  predicate ContainerMoved(t: Tok, m: Move, c: char) {
    match m
    case Stop(_, _) => true
    case Redo(t1) => t1.quote == t.quote && Top(t1) == FRESH_LEVEL
    case Eat(t1) =>
      if c == '"' || c == '\'' then t1.quote == c && At(t1, FieldName, Top(t).saved)
      else
        && c != '/' && t1.quote == t.quote && Top(t1).state == EatWs
        && Top(t1).saved in {Finish, ArrayAfterSep, FieldStartAfterSep, ObjectValue}
  }

  lemma ContainerMoves(cfg: Config, t: Tok, c: char)
    requires Top(t).state in {Array, ArrayAfterSep, ArraySep, FieldStart, FieldStartAfterSep, FieldEnd,
                              ObjectValue, ObjectSep}
    ensures ContainerMoved(t, StepContainer(cfg, t, c), c)
  {
  }

  lemma ContainerTracks(strict: bool, t: Tok, m: Move, l: Lex, c: char)
    requires Tracks(strict, t, l) && l == Outside && ContainerMoved(t, m, c)
    ensures Follows(strict, m, l, c)
  {
  }

  lemma FinishTracks(strict: bool, t: Tok, l: Lex, c: char)
    requires Tracks(strict, t, l) && Top(t).state == Finish
    ensures Follows(strict, StepFinish(t), l, c)
  {
  }

  lemma ValueTracks(cfg: Config, t: Tok, l: Lex, c: char)
    requires Tracks(cfg.strict, t, l) && (Top(t).state == Start || IsScalarState(Top(t).state))
    ensures Follows(cfg.strict, Step(cfg, t, c), l, c)
  {
    match Top(t).state
    case Start =>
      StartBegins(cfg, t, c);
      StartTracks(cfg.strict, t, StepStart(cfg, t, c), l, c);
    case NullWord =>
      NullLetter(cfg, t, c);
      WordTracks(cfg.strict, t, StepNull(cfg, t, c), l, c);
    case Boolean =>
      BooleanLetter(cfg, t, c);
      WordTracks(cfg.strict, t, StepBoolean(cfg, t, c), l, c);
    case Number => NumberTracks(cfg, t, l, c);
    case _ => InfinityTracks(cfg, t, l, c);
  }

  lemma StringTracks(cfg: Config, t: Tok, l: Lex, c: char)
    requires Tracks(cfg.strict, t, l) && InString(Top(t).state)
    ensures Follows(cfg.strict, Step(cfg, t, c), l, c)
  {
    match Top(t).state
    case StringEscape => EscapeTracks(cfg.strict, t, l, c);
    case EscapeUnicode =>
      HexMoves(t, c);
      HexTracks(cfg.strict, t, StepUnicode(t, c), l, c);
    case NeedEscape | NeedU => NeedTracks(cfg.strict, t, l, c);
    case _ => TextTracks(cfg.strict, t, l, c);
  }

  lemma StepTracks(cfg: Config, t: Tok, l: Lex, c: char)
    requires Tracks(cfg.strict, t, l)
    ensures Follows(cfg.strict, Step(cfg, t, c), l, c)
  {
    if Top(t).state == Start || IsScalarState(Top(t).state) {
      ValueTracks(cfg, t, l, c);
    } else if InString(Top(t).state) {
      StringTracks(cfg, t, l, c);
    } else {
      match Top(t).state
      case EatWs => SpaceTracks(cfg, t, l, c);
      case Finish => FinishTracks(cfg.strict, t, l, c);
      case CommentStart | Comment | CommentEol | CommentEnd => CommentTracks(cfg.strict, t, l, c);
      case ArrayAdd | ObjectValueAdd =>
      case _ =>
        ContainerMoves(cfg, t, c);
        ContainerTracks(cfg.strict, t, StepContainer(cfg, t, c), l, c);
    }
  }

  /** A call that asks for more is in the lexical state of its input. */
  lemma {:induction false} CallTracks(cfg: Config, t: Tok, l: Lex, text: string)
    requires Tracks(cfg.strict, t, l) && NUL !in text && Exec(cfg, t, text).err == Continue
    ensures Lexed(l, text) == LexOf(Top(Exec(cfg, t, text).t).state, Exec(cfg, t, text).t.quote)
    decreases |text|, Weight(t)
  {
    if text != [] {
      RedoProgress(cfg, t, text[0]);
      StepTracks(cfg, t, l, text[0]);
      match Step(cfg, t, text[0])
      case Stop(t1, err) => NeverStopsToContinue(cfg, t, text[0]);
      case Redo(t1) => CallTracks(cfg, t1, l, text);
      case Eat(t1) => CallTracks(cfg, t1, LexStep(l, text[0]), text[1..]);
    }
  }

  /** A text that does not end inside a comment is never accepted with a container left open. */
  lemma {:induction false} UnclosedOnlyInComment(cfg: Config, text: string)
    requires NUL !in text && OpenSuccess(ParseText(cfg, text))
    ensures !cfg.strict && EndsInComment(text)
  {
    SuccessIsComplete(cfg, FreshTok(), text + [NUL]);
    UnclosedIff(cfg, FreshTok(), text);
    CallTracks(cfg, FreshTok(), Outside, text);
  }
}
