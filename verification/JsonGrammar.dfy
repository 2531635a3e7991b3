/** JSON texts as a grammar: what RFC 8259 allows, and what the tokener reads besides. */
module JsonGrammar {
  import opened Arith
  import opened Options
  import opened JsonValues
  import opened JsonTokener
  import opened JsonEscapes

  /** White space is characters; lenient mode takes comments for white space as well. */
  datatype Space = Char(c: char) | Block(body: string) | Line(body: string)

  type Spaces = seq<Space>

  /** A word, a number, a string, an array or an object; `cut` is what is ignored at the end of
      a number, `gap` the space between the brackets of an empty container, and `extra` a comma
      behind the last element with the space behind it. */
  datatype Tree =
    | Word(w: string)
    | Num(text: string, cut: string)
    | Literal(quote: char, ps: seq<Piece>)
    | EmptyList(gap: Spaces)
    | List(items: seq<Element>, extra: Option<Spaces>)
    | EmptyRecord(gap: Spaces)
    | Record(members: seq<Member>, extra: Option<Spaces>)

  /** A value with the space around it. */
  datatype Element = Element(before: Spaces, value: Tree, after: Spaces)

  /** A name with the space around it, a colon and a value. */
  datatype Member = Member(before: Spaces, quote: char, name: seq<Piece>, mid: Spaces, item: Element)

  // ---------------------------------------------------------------- texts

  function SpaceText(p: Space): string {
    match p
    case Char(c) => [c]
    case Block(body) => "/*" + (body + "*/")
    case Line(body) => "//" + (body + "\n")
  }

  function GapText(gap: Spaces): string {
    if gap == [] then [] else SpaceText(gap[0]) + GapText(gap[1..])
  }

  function TreeText(v: Tree): string
    decreases v, 1
  {
    match v
    case Word(w) => w
    case Num(text, cut) => text + cut
    case Literal(quote, ps) => [quote] + (Text(ps) + [quote])
    case EmptyList(gap) => ['['] + (GapText(gap) + [']'])
    case List(items, extra) => ['['] + ItemsText(items, extra)
    case EmptyRecord(gap) => ['{'] + (GapText(gap) + ['}'])
    case Record(members, extra) => ['{'] + MembersText(members, extra)
  }

  function ElementText(e: Element): string
    decreases e, 2
  {
    GapText(e.before) + (TreeText(e.value) + GapText(e.after))
  }

  /** The end of a container that is not empty. */
  function CloseText(extra: Option<Spaces>, close: char): string {
    match extra
    case None => [close]
    case Some(gap) => [','] + (GapText(gap) + [close])
  }

  /** The elements with commas between them, and the closing bracket. */
  function ItemsText(items: seq<Element>, extra: Option<Spaces>): string
    decreases items, 0
  {
    if items == [] then []
    else
      ElementText(items[0]) +
        if |items| == 1 then CloseText(extra, ']') else [','] + ItemsText(items[1..], extra)
  }

  function NameText(m: Member): string {
    GapText(m.before) + ([m.quote] + (Text(m.name) + ([m.quote] + (GapText(m.mid) + [':']))))
  }

  function MembersText(members: seq<Member>, extra: Option<Spaces>): string
    decreases members, 0
  {
    if members == [] then []
    else
      NameText(members[0]) + (ElementText(members[0].item) +
        if |members| == 1 then CloseText(extra, '}') else [','] + MembersText(members[1..], extra))
  }

  // ---------------------------------------------------------------- space

  /** In a comment a star and the character behind it are read as a pair. */
  predicate Paired(b: string) {
    b == [] ||
    (b[0] != NUL &&
     if b[0] == '*' then |b| > 1 && b[1] != '/' && b[1] != NUL && Paired(b[2..]) else Paired(b[1..]))
  }

  /** Space, horizontal tab, line feed and carriage return; comments in lenient mode. */
  predicate GoodSpace(strict: bool, p: Space) {
    match p
    case Char(c) => c as int in {0x20, 0x09, 0x0A, 0x0D}
    case Block(body) => !strict && Paired(body)
    case Line(body) => !strict && forall i :: 0 <= i < |body| ==> body[i] != '\n' && body[i] != NUL
  }

  predicate GoodGap(strict: bool, gap: Spaces) {
    forall i :: 0 <= i < |gap| ==> GoodSpace(strict, gap[i])
  }

  lemma SpaceCodes(c: char)
    ensures IsWs(c) <==> c as int in {0x20, 0x09, 0x0A, 0x0D}
  {
    assert ' ' as int == 0x20 && '\t' as int == 0x09 && '\n' as int == 0x0A && '\r' as int == 0x0D;
  }

  // ---------------------------------------------------------------- numbers

  predicate Decimals(s: string) {
    forall i :: 0 <= i < |s| ==> '0' <= s[i] <= '9'
  }

  predicate Marks(c: char) { c == '.' || c == 'e' || c == 'E' }

  /** A number with a point or an exponent. */
  predicate Real(s: string) {
    exists i :: 0 <= i < |s| && Marks(s[i])
  }

  predicate HasExponent(s: string) {
    exists i :: 0 <= i < |s| && (s[i] == 'e' || s[i] == 'E')
  }

  /** Which character may come behind p in a number: a point before any mark, one exponent, a
      sign at the beginning or behind a mark. */
  predicate MayFollow(p: string, c: char) {
    || '0' <= c <= '9'
    || (c == '.' && !Real(p))
    || ((c == 'e' || c == 'E') && !HasExponent(p))
    || (c == '-' && (p == [] || Marks(p[|p| - 1])))
    || (c == '+' && p != [] && Marks(p[|p| - 1]))
  }

  predicate Follows(s: string) {
    forall i :: 0 <= i < |s| ==> MayFollow(s[..i], s[i])
  }

  predicate NumberText(s: string) {
    s != [] && ('0' <= s[0] <= '9' || s[0] == '-') && Follows(s)
  }

  function Pow10(n: nat): nat {
    if n == 0 then 1 else 10 * Pow10(n - 1)
  }

  /** The number that decimal digits denote, each by its place. */
  function Places(s: string): nat
    requires Decimals(s)
  {
    if s == [] then 0
    else
      assert '0' <= s[0] <= '9';
      (s[0] as int - '0' as int) * Pow10(|s| - 1) + Places(s[1..])
  }

  /** A number without a point or an exponent. */
  predicate IntegerText(s: string) {
    s != [] && (Decimals(s) || (s[0] == '-' && Decimals(s[1..])))
  }

  function Integer(s: string): int
    requires IntegerText(s)
  {
    if s[0] == '-' then 0 - Places(s[1..]) else Places(s)
  }

  lemma IntegerShape(s: string)
    requires NumberText(s) && !Real(s)
    ensures IntegerText(s)
  {
    forall i | 0 < i < |s| ensures '0' <= s[i] <= '9' {
      assert MayFollow(s[..i], s[i]) && !Marks(s[i]) && !Marks(s[i - 1]);
      assert s[..i][|s[..i]| - 1] == s[i - 1];
    }
  }

  predicate CutsOff(c: char) { c == 'e' || c == 'E' || c == '+' || c == '-' }

  /** Strict mode refuses integers that do not fit into 64 bits or have a zero before another
      number. Lenient mode ignores exponent letters and signs at the end of a real number.
      Whether the rest is a real number the C library decides. */
  predicate GoodNumber(cfg: Config, text: string, cut: string) {
    var s := text + cut;
    && NumberText(s) && text != [] && (cut != [] ==> !cfg.strict)
    && if Real(s) then
         && cfg.readsDouble(text) && (forall i :: 0 <= i < |cut| ==> CutsOff(cut[i]))
         && (cfg.strict || |text| == 1 || !CutsOff(text[|text| - 1]))
       else
         IntegerShape(s);
         && cut == [] && s != "-"
         && (cfg.strict ==> INT64_MIN <= Integer(s) <= UINT64_MAX && (s[0] == '0' ==> Integer(s) == 0))
  }

  /** Integers saturate, which matters in lenient mode only. */
  function NumberMeans(text: string, cut: string): Json {
    if Real(text + cut) then Double(text)
    else if !IntegerText(text) then Null
    else if Integer(text) <= INT64_MAX then Int(Max(Integer(text), INT64_MIN))
    else UInt(Min(Integer(text), UINT64_MAX))
  }

  // ---------------------------------------------------------------- values

  /** A name is a C string: it ends before its first NUL. */
  function UpToNul(s: string): string {
    if s == [] || s[0] == NUL then [] else [s[0]] + UpToNul(s[1..])
  }

  lemma {:induction false} CStringIs(s: string)
    ensures CString(s) == UpToNul(s)
    decreases |s|
  {
    if s != [] && s[0] != NUL {
      CStringIs(s[1..]);
      var n := IndexOf(s[1..], NUL);
      assert s[..n + 1] == [s[0]] + s[1..][..n];
    }
  }

  function SmallLetter(c: char): char {
    if 'A' <= c <= 'Z' then 'a' + (c - 'A') else c
  }

  function SmallLetters(w: string): (r: string)
    ensures |r| == |w|
  {
    seq(|w|, i requires 0 <= i < |w| => SmallLetter(w[i]))
  }

  /** Words are the same in any case. */
  function WordMeans(w: string): Json {
    match SmallLetters(w)
    case "true" => Bool(true)
    case "false" => Bool(false)
    case "nan" => Double("NaN")
    case "infinity" => Double("Infinity")
    case "-infinity" => Double("-Infinity")
    case _ => Null
  }

  function LiteralMeans(ps: seq<Piece>): string {
    if Valid(ps) then Machine(ps, 0) else ""
  }

  function Means(v: Tree): Json
    decreases v, 1
  {
    match v
    case Word(w) => WordMeans(w)
    case Num(text, cut) => NumberMeans(text, cut)
    case Literal(_, ps) => Str(LiteralMeans(ps))
    case EmptyList(_) => Arr([])
    case List(items, _) => Arr(ItemsMean(items))
    case EmptyRecord(_) => Obj([])
    case Record(members, _) => Obj(MembersMean([], members))
  }

  function ItemsMean(items: seq<Element>): seq<Json>
    decreases items, 0
  {
    if items == [] then [] else [Means(items[0].value)] + ItemsMean(items[1..])
  }

  /** The fields with one more member, which replaces an earlier one of the same name. */
  function WithMember(done: seq<Field>, m: Member): seq<Field>
    decreases m, 3
  {
    SetField(done, UpToNul(LiteralMeans(m.name)), Means(m.item.value))
  }

  function MembersMean(done: seq<Field>, members: seq<Member>): seq<Field>
    decreases members, 0
  {
    if members == [] then done else MembersMean(WithMember(done, members[0]), members[1..])
  }

  // ---------------------------------------------------------------- what is read

  /** Levels needed below a value. */
  function Height(v: Tree): nat
    decreases v, 1
  {
    match v
    case List(items, _) => ItemsHeight(items)
    case Record(members, _) => MembersHeight(members)
    case _ => 0
  }

  function ItemsHeight(items: seq<Element>): nat
    decreases items, 0
  {
    if items == [] then 0 else Max(1 + Height(items[0].value), ItemsHeight(items[1..]))
  }

  function MembersHeight(members: seq<Member>): nat
    decreases members, 0
  {
    if members == [] then 0 else Max(1 + Height(members[0].item.value), MembersHeight(members[1..]))
  }

  predicate GoodWord(strict: bool, w: string) {
    if strict then w in {"null", "true", "false", "NaN", "Infinity", "-Infinity"}
    else SmallLetters(w) in {"null", "true", "false", "nan", "infinity", "-infinity"}
  }

  predicate GoodExtra(strict: bool, extra: Option<Spaces>) {
    extra.Some? ==> !strict && GoodGap(strict, extra.value)
  }

  /** The grammar of what is read. */
  predicate Good(cfg: Config, v: Tree)
    decreases v, 1
  {
    match v
    case Word(w) => GoodWord(cfg.strict, w)
    case Num(text, cut) => GoodNumber(cfg, text, cut)
    case Literal(quote, ps) =>
      (quote == '"' || (quote == '\'' && !cfg.strict)) && Valid(ps) && Inside(ps, quote)
    case EmptyList(gap) => GoodGap(cfg.strict, gap)
    case List(items, extra) => items != [] && GoodItems(cfg, items) && GoodExtra(cfg.strict, extra)
    case EmptyRecord(gap) => GoodGap(cfg.strict, gap)
    case Record(members, extra) => members != [] && GoodMembers(cfg, members) && GoodExtra(cfg.strict, extra)
  }

  predicate GoodElement(cfg: Config, e: Element)
    decreases e, 2
  {
    GoodGap(cfg.strict, e.before) && Good(cfg, e.value) && GoodGap(cfg.strict, e.after)
  }

  predicate GoodItems(cfg: Config, items: seq<Element>)
    decreases items, 0
  {
    items != [] ==> GoodElement(cfg, items[0]) && GoodItems(cfg, items[1..])
  }

  /** Names may be in single quotes, in strict mode too. */
  predicate GoodName(strict: bool, m: Member) {
    && GoodGap(strict, m.before) && (m.quote == '"' || m.quote == '\'')
    && Valid(m.name) && Inside(m.name, m.quote) && GoodGap(strict, m.mid)
  }

  predicate GoodMembers(cfg: Config, members: seq<Member>)
    decreases members, 0
  {
    members != [] ==>
      && GoodName(cfg.strict, members[0]) && GoodElement(cfg, members[0].item)
      && GoodMembers(cfg, members[1..])
  }

  // ---------------------------------------------------------------- RFC 8259

  /** Section 6: an optional minus sign, digits without a superfluous zero, an optional fraction
      and an optional exponent. */
  predicate RfcNumber(sign: string, whole: string, frac: string, exp: string) {
    && (sign == "" || sign == "-")
    && whole != "" && Decimals(whole) && (whole[0] == '0' ==> |whole| == 1)
    && (frac != "" ==> |frac| > 1 && frac[0] == '.' && Decimals(frac[1..]))
    && (exp != "" ==>
         && |exp| > 1 && (exp[0] == 'e' || exp[0] == 'E')
         && (if exp[1] == '+' || exp[1] == '-' then |exp| > 2 && Decimals(exp[2..]) else Decimals(exp[1..])))
  }

  /** Section 7: no control characters in a string. */
  predicate RfcLiteral(ps: seq<Piece>) {
    && Valid(ps) && Inside(ps, '"')
    && forall i :: 0 <= i < |ps| ==> ps[i].Raw? ==> forall k :: 0 <= k < |ps[i].b| ==> ps[i].b[k] >= ' '
  }

  ghost predicate Rfc(v: Tree)
    decreases v, 1
  {
    match v
    case Word(w) => w in {"null", "true", "false"}
    case Num(text, cut) =>
      cut == "" && exists sign, whole, frac, exp ::
        RfcNumber(sign, whole, frac, exp) && text == sign + whole + frac + exp
    case Literal(quote, ps) => quote == '"' && RfcLiteral(ps)
    case EmptyList(gap) => GoodGap(true, gap)
    case List(items, extra) => items != [] && RfcItems(items) && extra.None?
    case EmptyRecord(gap) => GoodGap(true, gap)
    case Record(members, extra) => members != [] && RfcMembers(members) && extra.None?
  }

  ghost predicate RfcElement(e: Element)
    decreases e, 2
  {
    GoodGap(true, e.before) && Rfc(e.value) && GoodGap(true, e.after)
  }

  ghost predicate RfcItems(items: seq<Element>)
    decreases items, 0
  {
    items != [] ==> RfcElement(items[0]) && RfcItems(items[1..])
  }

  ghost predicate RfcMembers(members: seq<Member>)
    decreases members, 0
  {
    members != [] ==>
      var m := members[0];
      && GoodGap(true, m.before) && m.quote == '"' && RfcLiteral(m.name) && GoodGap(true, m.mid)
      && RfcElement(m.item) && RfcMembers(members[1..])
  }

  /** The C library reads the real numbers, and in strict mode the integers fit into 64 bits. */
  predicate Fits(cfg: Config, v: Tree)
    decreases v, 1
  {
    match v
    case Num(text, _) =>
      if Real(text) then cfg.readsDouble(text)
      else cfg.strict && IntegerText(text) ==> INT64_MIN <= Integer(text) <= UINT64_MAX
    case List(items, _) => ItemsFit(cfg, items)
    case Record(members, _) => MembersFit(cfg, members)
    case _ => true
  }

  predicate ItemsFit(cfg: Config, items: seq<Element>)
    decreases items, 0
  {
    items != [] ==> Fits(cfg, items[0].value) && ItemsFit(cfg, items[1..])
  }

  predicate MembersFit(cfg: Config, members: seq<Member>)
    decreases members, 0
  {
    members != [] ==> Fits(cfg, members[0].item.value) && MembersFit(cfg, members[1..])
  }

  // ---------------------------------------------------------------- RFC 8259 is part of what is read

  /** Digits go on with any number. */
  lemma MoreDigits(p: string, ds: string)
    requires Follows(p) && Decimals(ds)
    ensures Follows(p + ds) && (Real(p + ds) <==> Real(p)) && (HasExponent(p + ds) <==> HasExponent(p))
  {
    var s := p + ds;
    forall i | 0 <= i < |s| ensures MayFollow(s[..i], s[i]) {
      if i < |p| {
        assert s[..i] == p[..i] && s[i] == p[i];
      } else {
        assert s[i] == ds[i - |p|];
      }
    }
    if Real(p) { var i :| 0 <= i < |p| && Marks(p[i]); assert s[i] == p[i]; }
    if HasExponent(p) { var i :| 0 <= i < |p| && (p[i] == 'e' || p[i] == 'E'); assert s[i] == p[i]; }
    SameMarks(p, ds);
  }

  lemma SameMarks(p: string, ds: string)
    requires Decimals(ds)
    ensures Real(p + ds) ==> Real(p)
    ensures HasExponent(p + ds) ==> HasExponent(p)
  {
    var s := p + ds;
    assert forall i :: |p| <= i < |s| ==> s[i] == ds[i - |p|];
    assert forall i :: 0 <= i < |p| ==> s[i] == p[i];
  }

  /** One more character. */
  lemma MoreChar(p: string, c: char)
    requires Follows(p) && MayFollow(p, c)
    ensures Follows(p + [c])
  {
    var s := p + [c];
    forall i | 0 <= i < |s| ensures MayFollow(s[..i], s[i]) {
      assert s[..i] == p[..i];
    }
  }

  lemma RfcWhole(sign: string, whole: string, frac: string, exp: string)
    requires RfcNumber(sign, whole, frac, exp)
    ensures Follows(sign + whole) && !Real(sign + whole)
  {
    assert Follows(sign) && !Real(sign);
    MoreDigits(sign, whole);
  }

  lemma RfcFraction(p: string, frac: string)
    requires Follows(p) && !Real(p)
    requires frac != "" ==> |frac| > 1 && frac[0] == '.' && Decimals(frac[1..])
    ensures Follows(p + frac) && !HasExponent(p + frac) && (Real(p + frac) <==> frac != "")
  {
    if frac == "" {
      assert p + frac == p;
    } else {
      MoreChar(p, '.');
      MoreDigits(p + ['.'], frac[1..]);
      assert p + ['.'] + frac[1..] == p + frac;
      assert (p + ['.'])[|p|] == '.';
    }
  }

  lemma RfcExponent(p: string, exp: string)
    requires Follows(p) && !HasExponent(p) && exp != ""
    requires |exp| > 1 && (exp[0] == 'e' || exp[0] == 'E')
    requires if exp[1] == '+' || exp[1] == '-' then |exp| > 2 && Decimals(exp[2..]) else Decimals(exp[1..])
    ensures Follows(p + exp) && Real(p + exp)
  {
    var q := p + [exp[0]];
    MoreChar(p, exp[0]);
    assert q[|p|] == exp[0];
    if exp[1] == '+' || exp[1] == '-' {
      MoreChar(q, exp[1]);
      MoreDigits(q + [exp[1]], exp[2..]);
      assert q + [exp[1]] + exp[2..] == p + exp;
      assert (p + exp)[|p|] == exp[0];
    } else {
      MoreDigits(q, exp[1..]);
      assert q + exp[1..] == p + exp;
    }
  }

  /** Every number of RFC 8259 is one for the scanner; it is real if it has a fraction or an
      exponent. */
  lemma RfcNumberText(sign: string, whole: string, frac: string, exp: string)
    requires RfcNumber(sign, whole, frac, exp)
    ensures var s := sign + whole + frac + exp;
      NumberText(s) && (Real(s) <==> frac != "" || exp != "") && '0' <= s[|s| - 1] <= '9'
  {
    RfcWhole(sign, whole, frac, exp);
    RfcFraction(sign + whole, frac);
    var p := sign + whole + frac;
    if exp == "" {
      assert p + exp == p;
    } else {
      RfcExponent(p, exp);
    }
    RfcLast(sign, whole, frac, exp);
  }

  lemma RfcLast(sign: string, whole: string, frac: string, exp: string)
    requires RfcNumber(sign, whole, frac, exp)
    ensures var s := sign + whole + frac + exp;
      s != [] && '0' <= s[|s| - 1] <= '9' && ('0' <= s[0] <= '9' || s[0] == '-')
  {
    var s := sign + whole + frac + exp;
    assert s[0] == (if sign == "" then whole[0] else '-');
    if exp != "" {
      assert s[|s| - 1] == exp[|exp| - 1];
      assert exp[|exp| - 1] == exp[1..][|exp| - 2];
      assert |exp| > 2 ==> exp[|exp| - 1] == exp[2..][|exp| - 3];
    } else if frac != "" {
      assert s[|s| - 1] == frac[1..][|frac| - 2];
    } else {
      assert s[|s| - 1] == whole[|whole| - 1];
    }
  }

  lemma RfcInteger(sign: string, whole: string, frac: string, exp: string)
    requires RfcNumber(sign, whole, frac, exp) && frac == "" && exp == ""
    ensures var s := sign + whole + frac + exp;
      IntegerText(s) && s != "-" && (s[0] == '0' ==> Integer(s) == 0)
  {
    var s := sign + whole + frac + exp;
    assert s == sign + whole;
    if sign == "-" {
      assert s[1..] == whole;
    } else {
      assert s == whole;
      if s[0] == '0' {
        assert s[1..] == "";
        assert Places(s[1..]) == 0;
      }
    }
  }

  lemma RfcGoodNumber(cfg: Config, sign: string, whole: string, frac: string, exp: string)
    requires RfcNumber(sign, whole, frac, exp) && Fits(cfg, Num(sign + whole + frac + exp, ""))
    ensures GoodNumber(cfg, sign + whole + frac + exp, "")
  {
    var s := sign + whole + frac + exp;
    assert s + "" == s;
    RfcNumberText(sign, whole, frac, exp);
    if frac == "" && exp == "" {
      RfcInteger(sign, whole, frac, exp);
    }
  }

  /** The grammar of RFC 8259 is part of the grammar here, but for numbers that do not fit. */
  lemma {:induction false} RfcIsGood(cfg: Config, v: Tree)
    requires Rfc(v) && Fits(cfg, v)
    ensures Good(cfg, v)
    decreases v, 1
  {
    match v
    case Num(text, _) =>
      var sign, whole, frac, exp :|
        RfcNumber(sign, whole, frac, exp) && text == sign + whole + frac + exp;
      RfcGoodNumber(cfg, sign, whole, frac, exp);
    case Word(w) => assert SmallLetters(w) == w;
    case List(items, _) => RfcItemsGood(cfg, items);
    case Record(members, _) => RfcMembersGood(cfg, members);
    case _ =>
  }

  lemma {:induction false} RfcItemsGood(cfg: Config, items: seq<Element>)
    requires RfcItems(items) && ItemsFit(cfg, items)
    ensures GoodItems(cfg, items)
    decreases items, 0
  {
    if items != [] {
      RfcIsGood(cfg, items[0].value);
      RfcItemsGood(cfg, items[1..]);
    }
  }

  lemma {:induction false} RfcMembersGood(cfg: Config, members: seq<Member>)
    requires RfcMembers(members) && MembersFit(cfg, members)
    ensures GoodMembers(cfg, members)
    decreases members, 0
  {
    if members != [] {
      RfcIsGood(cfg, members[0].item.value);
      RfcMembersGood(cfg, members[1..]);
    }
  }
}
