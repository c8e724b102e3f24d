// `uniqueSpaceSlug`: assemble slugs until one is neither among the used slugs
// nor refused by the caller's `isUnique`, giving up after `maxAttempts`.

module Unique {
  import opened SlugTypes
  import opened Sampling
  import opened Assembly

  /** The options of `uniqueSpaceSlug`: those of `spaceSlug` plus the three
      retry options. An absent `usedSlugs` behaves as an empty list. */
  datatype UniqueOptions = UniqueOptions(
    slug: Options,
    isUnique: Option<string -> bool>,
    maxAttempts: Option<int>,
    usedSlugs: seq<string>)

  /** `options.maxAttempts || 5`. */
  function MaxAttempts(o: UniqueOptions): (m: int)
    ensures m != 0
    ensures o.maxAttempts.None? || o.maxAttempts == Some(0) ==> m == 5
    ensures o.maxAttempts.Some? && o.maxAttempts.value != 0 ==> m == o.maxAttempts.value
  {
    OrDefault(o.maxAttempts, 5)
  }

  /** A candidate is turned down when it is already used or `isUnique` says no. */
  predicate Rejected(o: UniqueOptions, slug: string) {
    slug in o.usedSlugs || (o.isUnique.Some? && !o.isUnique.value(slug))
  }

  /** What a run produces: its result, every slug it assembled, in order, and
      every slug it handed to `isUnique`, in order. */
  datatype Outcome = Outcome(result: Result<string>, candidates: seq<string>, asked: seq<string>)

  function Prepend(candidates: seq<string>, asked: seq<string>, out: Outcome): Outcome {
    Outcome(out.result, candidates + out.candidates, asked + out.asked)
  }

  lemma PrependTwice(c1: seq<string>, a1: seq<string>, c2: seq<string>, a2: seq<string>, out: Outcome)
    ensures Prepend(c1, a1, Prepend(c2, a2, out)) == Prepend(c1 + c2, a1 + a2, out)
  {
    assert c1 + (c2 + out.candidates) == (c1 + c2) + out.candidates;
    assert a1 + (a2 + out.asked) == (a1 + a2) + out.asked;
  }

  /** `_uniqueSpaceSlug(parts, options, attempts)`, for any way `assemble` of
      building a slug from the draws: assemble a slug; an assembly error
      propagates; past `maxAttempts` the run fails; a used slug, or one
      `isUnique` refuses, is retried with the counter one higher and the draws
      the assembly left. `isUnique` is only consulted for a slug that is not
      already used. */
  function Retry(assemble: seq<Random> -> Drawn<string>, o: UniqueOptions, rnd: seq<Random>, attempts: int): (out: Outcome)
    ensures |out.asked| <= |out.candidates|
    ensures out.result.Ok? ==> out.result.value in out.candidates
    decreases MaxAttempts(o) + 1 - attempts
  {
    var d := assemble(rnd);
    if d.result.Err? then Outcome(Err(d.result.error), [], [])
    else
      var slug := d.result.value;
      if attempts > MaxAttempts(o) then Outcome(Err(RetriesExhausted(o.maxAttempts)), [slug], [])
      else if slug in o.usedSlugs then
        Prepend([slug], [], Retry(assemble, o, d.rest, attempts + 1))
      else if o.isUnique.Some? && !o.isUnique.value(slug) then
        Prepend([slug], [slug], Retry(assemble, o, d.rest, attempts + 1))
      else Outcome(Ok(slug), [slug], if o.isUnique.Some? then [slug] else [])
  }

  /** The retry loop, starting the attempt counter at 1. */
  method RetryLoop(assemble: seq<Random> -> Drawn<string>, o: UniqueOptions, rnd: seq<Random>)
    returns (r: Result<string>, candidates: seq<string>, asked: seq<string>)
    ensures Outcome(r, candidates, asked) == Retry(assemble, o, rnd, 1)
  {
    var attempts := 1;
    var draws := rnd;
    candidates, asked := [], [];
    while true
      invariant Retry(assemble, o, rnd, 1) == Prepend(candidates, asked, Retry(assemble, o, draws, attempts))
      decreases MaxAttempts(o) + 1 - attempts
    {
      ghost var here := Retry(assemble, o, draws, attempts);
      var d := assemble(draws);
      if d.result.Err? {
        r := Err(d.result.error);
        assert here == Outcome(r, [], []);
        assert candidates + [] == candidates && asked + [] == asked;
        return;
      }
      var slug := d.result.value;
      if attempts > MaxAttempts(o) {
        r := Err(RetriesExhausted(o.maxAttempts));
        assert here == Outcome(r, [slug], []);
        assert asked + [] == asked;
        candidates := candidates + [slug];
        return;
      }
      var rejected := slug in o.usedSlugs;
      var consulted: seq<string> := [];
      if !rejected && o.isUnique.Some? {
        consulted := [slug];
        rejected := !o.isUnique.value(slug);
      }
      if !rejected {
        r := Ok(slug);
        assert here == Outcome(r, [slug], consulted);
        candidates, asked := candidates + [slug], asked + consulted;
        return;
      }
      ghost var next := Retry(assemble, o, d.rest, attempts + 1);
      assert here == Prepend([slug], consulted, next);
      PrependTwice(candidates, asked, [slug], consulted, next);
      candidates, asked := candidates + [slug], asked + consulted;
      attempts := attempts + 1;
      draws := d.rest;
    }
  }

  /** The candidates not in `used`, in order. */
  function NotUsed(used: seq<string>, candidates: seq<string>): (r: seq<string>)
    ensures forall s :: s in r <==> s in candidates && s !in used
  {
    if candidates == [] then []
    else (if candidates[0] in used then [] else [candidates[0]]) + NotUsed(used, candidates[1..])
  }

  /** A returned slug is the last candidate assembled; it is not among the used
      slugs, `isUnique` accepted it when given (and was asked about it last), and
      it came from an attempt numbered at most `maxAttempts`. */
  lemma {:induction false} RetryAccepted(assemble: seq<Random> -> Drawn<string>, o: UniqueOptions,
                                         rnd: seq<Random>, attempts: int)
    ensures var out := Retry(assemble, o, rnd, attempts);
      out.result.Ok? ==>
        && out.candidates != [] && out.result.value == out.candidates[|out.candidates| - 1]
        && out.result.value !in o.usedSlugs
        && (o.isUnique.Some? ==> o.isUnique.value(out.result.value))
        && (o.isUnique.Some? ==> out.asked != [] && out.asked[|out.asked| - 1] == out.result.value)
        && attempts + |out.candidates| - 1 <= MaxAttempts(o)
    decreases MaxAttempts(o) + 1 - attempts
  {
    var d := assemble(rnd);
    if d.result.Ok? && attempts <= MaxAttempts(o) && Rejected(o, d.result.value) {
      RetryAccepted(assemble, o, d.rest, attempts + 1);
    }
  }

  /** Every candidate but the last was turned down. */
  lemma {:induction false} RetryRejectsAllButLast(assemble: seq<Random> -> Drawn<string>, o: UniqueOptions,
                                                  rnd: seq<Random>, attempts: int)
    ensures forall i :: 0 <= i < |Retry(assemble, o, rnd, attempts).candidates| - 1 ==>
      Rejected(o, Retry(assemble, o, rnd, attempts).candidates[i])
    decreases MaxAttempts(o) + 1 - attempts
  {
    var d := assemble(rnd);
    if d.result.Ok? && attempts <= MaxAttempts(o) && Rejected(o, d.result.value) {
      var next := Retry(assemble, o, d.rest, attempts + 1);
      RetryRejectsAllButLast(assemble, o, d.rest, attempts + 1);
      var cs := Retry(assemble, o, rnd, attempts).candidates;
      assert cs == [d.result.value] + next.candidates;
      assert forall i :: 1 <= i < |cs| ==> cs[i] == next.candidates[i - 1];
    }
  }

  /** `isUnique` is asked only about candidates that are not used slugs, never
      when it is absent, and, when a slug is returned, about exactly the unused
      candidates, in order. */
  lemma {:induction false} RetryAsksUnusedOnly(assemble: seq<Random> -> Drawn<string>, o: UniqueOptions,
                                               rnd: seq<Random>, attempts: int)
    ensures var out := Retry(assemble, o, rnd, attempts);
      && (forall s :: s in out.asked ==> s in out.candidates && s !in o.usedSlugs)
      && (o.isUnique.None? ==> out.asked == [])
      && (o.isUnique.Some? && out.result.Ok? ==> out.asked == NotUsed(o.usedSlugs, out.candidates))
    decreases MaxAttempts(o) + 1 - attempts
  {
    var d := assemble(rnd);
    if d.result.Ok? && attempts <= MaxAttempts(o) && Rejected(o, d.result.value) {
      var slug := d.result.value;
      var next := Retry(assemble, o, d.rest, attempts + 1);
      RetryAsksUnusedOnly(assemble, o, d.rest, attempts + 1);
      assert ([slug] + next.candidates)[1..] == next.candidates;
    }
  }

  /** At most `maxAttempts` candidates are checked, and one more is assembled
      only to be refused. When no assembly fails, the run fails only by
      exhausting its attempts, after exactly that many plus one assemblies. */
  lemma {:induction false} RetryBounds(assemble: seq<Random> -> Drawn<string>, o: UniqueOptions,
                                       rnd: seq<Random>, attempts: int)
    ensures var out := Retry(assemble, o, rnd, attempts);
      |out.candidates| <= Max(MaxAttempts(o) - attempts + 1, 0) + 1
    ensures var out := Retry(assemble, o, rnd, attempts);
      (forall draws :: assemble(draws).result.Ok?) && out.result.Err? ==>
        && out.result == Err(RetriesExhausted(o.maxAttempts))
        && |out.candidates| == Max(MaxAttempts(o) - attempts + 1, 0) + 1
    decreases MaxAttempts(o) + 1 - attempts
  {
    var d := assemble(rnd);
    if d.result.Ok? && attempts <= MaxAttempts(o) && Rejected(o, d.result.value) {
      RetryBounds(assemble, o, d.rest, attempts + 1);
    }
  }

  /** When no assembly can itself fail with the retry error, a run that ends
      with it has assembled exactly one candidate more than the attempts it had
      left: the extra slug is built before the counter is checked. */
  lemma {:induction false} RetryExhaustedCount(assemble: seq<Random> -> Drawn<string>, o: UniqueOptions,
                                               rnd: seq<Random>, attempts: int)
    requires forall draws :: assemble(draws).result.Err? ==> !assemble(draws).result.error.RetriesExhausted?
    ensures var out := Retry(assemble, o, rnd, attempts);
      out.result.Err? && out.result.error.RetriesExhausted? ==>
        && out.result.error == RetriesExhausted(o.maxAttempts)
        && |out.candidates| == Max(MaxAttempts(o) - attempts + 1, 0) + 1
    decreases MaxAttempts(o) + 1 - attempts
  {
    var d := assemble(rnd);
    if d.result.Ok? && attempts <= MaxAttempts(o) && Rejected(o, d.result.value) {
      RetryExhaustedCount(assemble, o, d.rest, attempts + 1);
    }
  }

  /** When every assembled slug would be turned down (every possible slug is
      used, or `isUnique` always says no), the run fails. */
  lemma {:induction false} RetryAllRejected(assemble: seq<Random> -> Drawn<string>, o: UniqueOptions,
                                            rnd: seq<Random>, attempts: int)
    requires forall draws :: assemble(draws).result.Ok? ==> Rejected(o, assemble(draws).result.value)
    ensures Retry(assemble, o, rnd, attempts).result.Err?
    decreases MaxAttempts(o) + 1 - attempts
  {
    var d := assemble(rnd);
    if d.result.Ok? && attempts <= MaxAttempts(o) {
      RetryAllRejected(assemble, o, d.rest, attempts + 1);
    }
  }

  /** With no used slugs and an `isUnique` that always says yes, the first
      assembled slug (or its error) is the result. */
  lemma AlwaysUniqueFirst(assemble: seq<Random> -> Drawn<string>, o: UniqueOptions, rnd: seq<Random>)
    requires o.usedSlugs == [] && o.isUnique.Some? && forall s :: o.isUnique.value(s)
    requires MaxAttempts(o) >= 1
    ensures Retry(assemble, o, rnd, 1).result == assemble(rnd).result
  {
  }

  /** The first candidate is the first assembly, whose error, if any, ends the run. */
  lemma RetryFirst(assemble: seq<Random> -> Drawn<string>, o: UniqueOptions, rnd: seq<Random>)
    ensures var out, d := Retry(assemble, o, rnd, 1), assemble(rnd);
      && (d.result.Err? ==> out.result == d.result && out.candidates == [])
      && (d.result.Ok? ==> out.candidates != [] && out.candidates[0] == d.result.value)
  {
  }

  /** `spaceSlug(parts, options)` as the assembly step of the retry loop. */
  function Assembler(inputs: seq<Part>, o: UniqueOptions, defaultWords: Dictionary): seq<Random> -> Drawn<string> {
    draws => SpaceSlug(inputs, o.slug, defaultWords, draws)
  }

  /** The first candidate of `uniqueSpaceSlug` is `spaceSlug` on the same parts,
      options and draws; its error, if any, is the run's error. */
  lemma UniqueFirstCandidate(inputs: seq<Part>, o: UniqueOptions, defaultWords: Dictionary, rnd: seq<Random>)
    ensures var out, d := Retry(Assembler(inputs, o, defaultWords), o, rnd, 1), SpaceSlug(inputs, o.slug, defaultWords, rnd);
      && (d.result.Err? ==> out.result == d.result && out.candidates == [])
      && (d.result.Ok? ==> out.candidates != [] && out.candidates[0] == d.result.value)
  {
    RetryFirst(Assembler(inputs, o, defaultWords), o, rnd);
    assert Assembler(inputs, o, defaultWords)(rnd) == SpaceSlug(inputs, o.slug, defaultWords, rnd);
  }

  /** With parts that are `word`, `digits` or given values, a `uniqueSpaceSlug`
      run that runs out of attempts has assembled `maxAttempts || 5` slugs that
      were checked and refused, plus one more. */
  lemma UniqueExhaustedCount(inputs: seq<Part>, o: UniqueOptions, defaultWords: Dictionary, rnd: seq<Random>)
    requires BuiltinOnly(inputs)
    ensures var out := Retry(Assembler(inputs, o, defaultWords), o, rnd, 1);
      out.result.Err? && out.result.error.RetriesExhausted? ==>
        |out.candidates| == Max(MaxAttempts(o), 0) + 1
  {
    var assemble := Assembler(inputs, o, defaultWords);
    forall draws
      ensures assemble(draws).result.Err? ==> !assemble(draws).result.error.RetriesExhausted?
    {
      assert assemble(draws) == SpaceSlug(inputs, o.slug, defaultWords, draws);
    }
    RetryExhaustedCount(assemble, o, rnd, 1);
  }

  /** `uniqueSpaceSlug(parts, options)`. */
  method UniqueSpaceSlug(inputs: seq<Part>, o: UniqueOptions, defaultWords: Dictionary, rnd: seq<Random>)
    returns (r: Result<string>, candidates: seq<string>, asked: seq<string>)
    ensures Outcome(r, candidates, asked) == Retry(Assembler(inputs, o, defaultWords), o, rnd, 1)
  {
    r, candidates, asked := RetryLoop(Assembler(inputs, o, defaultWords), o, rnd);
  }
}
