/** Cutting a text into the inputs of several calls, outside numbers. */
module JsonSplits {
  import opened Seqs
  import opened JsonValues
  import opened JsonTokener
  import opened JsonCalls

  // ---------------------------------------------------------------- outside numbers

  /** A call that stops early never looks behind the place where it stops; a call that runs
      out of input, unless inside a number, leaves everything the next one needs. */
  lemma {:induction false} SplitCall(cfg: Config, t: Tok, a: string, b: string)
    requires Sane(cfg.strict, t) && NUL !in a
    ensures var r := Exec(cfg, t, a);
      if r.rest != [] then Exec(cfg, t, a + b) == r.(rest := r.rest + b)
      else Top(r.t).state != Number ==> Exec(cfg, t, a + b) == Exec(cfg, r.t, b)
    decreases |a|, Weight(t)
  {
    if a == [] {
      assert a + b == b;
    } else {
      RedoProgress(cfg, t, a[0]);
      StepSane(cfg, t, a[0]);
      assert (a + b)[0] == a[0] && (a + b)[1..] == a[1..] + b;
      match Step(cfg, t, a[0])
      case Stop(t1, err) =>
      case Redo(t1) => SplitCall(cfg, t1, a, b);
      case Eat(t1) => SplitCall(cfg, t1, a[1..], b);
    }
  }

  /** One call after another on the same tokener; what the last one gives. */
  function ManyCalls(cfg: Config, t: Tok, chunks: seq<string>): (r: Parsed)
    requires chunks != []
    decreases |chunks|
  {
    var r := Exec(cfg, t, chunks[0]);
    if |chunks| == 1 then r else ManyCalls(cfg, r.t, chunks[1..])
  }

  /** Every call but the last asks for more, outside of a number. */
  predicate AskForMore(cfg: Config, t: Tok, chunks: seq<string>)
    decreases |chunks|
  {
    |chunks| >= 2 ==>
      var r := Exec(cfg, t, chunks[0]);
      NUL !in chunks[0] && r.err == Continue && Top(r.t).state != Number &&
      AskForMore(cfg, r.t, chunks[1..])
  }

  lemma {:induction false} ContinueSane(cfg: Config, t: Tok, input: string)
    requires Sane(cfg.strict, t) && Exec(cfg, t, input).err == Continue
    ensures Exec(cfg, t, input).rest == [] && Sane(cfg.strict, Exec(cfg, t, input).t)
    decreases |input|, Weight(t)
  {
    if input != [] {
      RedoProgress(cfg, t, input[0]);
      StepSane(cfg, t, input[0]);
      match Step(cfg, t, input[0])
      case Stop(t1, err) => NeverStopsToContinue(cfg, t, input[0]);
      case Redo(t1) => ContinueSane(cfg, t1, input);
      case Eat(t1) => if input[0] != NUL { ContinueSane(cfg, t1, input[1..]); }
    }
  }

  /** Strings, escapes, words, comments and containers may be cut anywhere, in any number of
      places: the last call ends as a single call on the whole text would. */
  lemma {:induction false} SplitIndependence(cfg: Config, t: Tok, chunks: seq<string>)
    requires Sane(cfg.strict, t) && chunks != [] && AskForMore(cfg, t, chunks)
    ensures ManyCalls(cfg, t, chunks) == Exec(cfg, t, Flatten(chunks))
    decreases |chunks|
  {
    if |chunks| == 1 {
      assert chunks[1..] == [];
      assert chunks[0] + [] == chunks[0];
    } else {
      var r := Exec(cfg, t, chunks[0]);
      ContinueSane(cfg, t, chunks[0]);
      SplitCall(cfg, t, chunks[0], Flatten(chunks[1..]));
      SplitIndependence(cfg, r.t, chunks[1..]);
    }
  }
}
