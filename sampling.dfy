/** `word` and `digits`: draw from a pool into a `Set` until it reaches a size.
    `Math.random()` is the oracle `rnd`; each step returns the draws it left. */
module Sampling {
  import opened SlugTypes

  /** The elements of a sequence, as a set. */
  function Elements(s: seq<string>): set<string> {
    set x | x in s
  }

  /** `x || d` for an optional count: absent and 0 both mean `d`. */
  function OrDefault(n: Option<int>, d: int): int {
    match n
    case None => d
    case Some(v) => if v == 0 then d else v
  }

  /** `x || d` on a number: a given non-zero `x` wins; an absent `x` or 0 gives `d`. */
  lemma OrDefaultIsOr(n: Option<int>, d: int)
    ensures n.Some? && n.value != 0 ==> OrDefault(n, d) == n.value
    ensures n.None? || n == Some(0) ==> OrDefault(n, d) == d
  {
  }

  /** `Math.floor(r * n)` is a valid index into a list of `n` elements. */
  function Pick(r: Random, n: nat): (k: nat)
    requires n > 0
    ensures k < n
  {
    assert 0.0 <= r * n as real < n as real by {
      assert (1.0 - r) * n as real > 0.0;
    }
    (r * n as real).Floor
  }

  /** `set.add(x)`. */
  function Add(s: StringSet, x: string): (r: StringSet)
    ensures Elements(r) == Elements(s) + {x}
    ensures s <= r && |r| <= |s| + 1
  {
    if x in s then s else s + [x]
  }

  /** `while (set.size < c) set.add(pool[Math.floor(Math.random() * pool.length)])`,
      continued from `acc` on the draws `rnd`. */
  function Fill(pool: seq<string>, c: int, acc: StringSet, rnd: seq<Random>): (d: Drawn<StringSet>)
    requires |pool| > 0
    requires Elements(acc) <= Elements(pool)
    ensures d.result.Ok? ==> acc <= d.result.value
    ensures d.result.Ok? ==> |d.result.value| == Max(c, |acc|)
    ensures d.result.Ok? ==> Elements(d.result.value) <= Elements(pool)
    ensures d.result.Err? ==> d.result.error == OutOfDraws && d.rest == []
    ensures |d.rest| <= |rnd| && d.rest == rnd[|rnd| - |d.rest|..]
    decreases |rnd|
  {
    if |acc| >= c then Drawn(Ok(acc), rnd)
    else if rnd == [] then Drawn(Err(OutOfDraws), [])
    else
      var x := pool[Pick(rnd[0], |pool|)];
      assert x in Elements(pool);
      var next := Add(acc, x);
      var d := Fill(pool, c, next, rnd[1..]);
      assert d.result.Ok? ==> acc <= d.result.value && Max(c, |next|) == Max(c, |acc|);
      assert d.rest == rnd[|rnd| - |d.rest|..] by {
        assert rnd[1..][|rnd| - 1 - |d.rest|..] == rnd[|rnd| - |d.rest|..];
      }
      d
  }

  /** A duplicate-free sequence has as many elements as its set. */
  lemma {:induction false} NoDupCard(s: seq<string>)
    requires NoDup(s)
    ensures |Elements(s)| == |s|
  {
    if s != [] {
      assert Elements(s) == {s[0]} + Elements(s[1..]);
      assert s[0] !in Elements(s[1..]);
      NoDupCard(s[1..]);
    }
  }

  /** A set filled from `pool` cannot outgrow the distinct words of `pool`. */
  lemma FilledWithinDistinct(v: StringSet, pool: seq<string>)
    requires Elements(v) <= Elements(pool)
    ensures |v| <= |Elements(pool)|
  {
    NoDupCard(v);
    assert |Elements(v)| <= |Elements(pool)| by {
      SubsetCard(Elements(v), Elements(pool));
    }
  }

  lemma {:induction false} SubsetCard(a: set<string>, b: set<string>)
    requires a <= b
    ensures |a| <= |b|
    decreases |a|
  {
    if a != {} {
      var x :| x in a;
      SubsetCard(a - {x}, b - {x});
    }
  }

  /** The list `word` samples from: `_words` when non-empty, else
      `dictionary[locale][category]`; an empty list when any of these is missing. */
  function Words(category: string, explicit: seq<string>, options: Options): (r: seq<string>)
    ensures |explicit| > 0 ==> r == explicit
    ensures |explicit| == 0 && r != [] ==>
      && options.dictionary.Some? && options.locale.Some?
      && options.locale.value in options.dictionary.value
      && category in options.dictionary.value[options.locale.value]
      && r == options.dictionary.value[options.locale.value][category]
    ensures |explicit| == 0 && options.dictionary.Some? && options.locale.Some?
            && options.locale.value in options.dictionary.value
            && category in options.dictionary.value[options.locale.value] ==>
      r == options.dictionary.value[options.locale.value][category]
  {
    if |explicit| > 0 then explicit
    else if options.dictionary.Some? && options.locale.Some?
         && options.locale.value in options.dictionary.value
         && category in options.dictionary.value[options.locale.value]
    then options.dictionary.value[options.locale.value][category]
    else []
  }

  /** `word(category)(count, explicit)(options)`. */
  function SampleWords(category: string, count: Option<int>, explicit: seq<string>,
                       options: Options, rnd: seq<Random>): (d: Drawn<StringSet>)
    ensures var words, c := Words(category, explicit, options), OrDefault(count, 1);
      && (d.result == Err(NoWords(category)) <==> words == [])
      && (d.result == Err(TooFewWords(c, |words|)) <==> words != [] && c > |words|)
      && (d.result.Err? ==> d.result.error in {NoWords(category), TooFewWords(c, |words|), OutOfDraws})
      && (d.result.Ok? ==> |d.result.value| == Max(c, 0))
      && (d.result.Ok? ==> Elements(d.result.value) <= Elements(words))
      && (d.result.Ok? ==> c <= |Elements(words)|)
  {
    var words := Words(category, explicit, options);
    if words == [] then Drawn(Err(NoWords(category)), rnd)
    else
      var c := OrDefault(count, 1);
      if c > |words| then Drawn(Err(TooFewWords(c, |words|)), rnd)
      else
        var d := Fill(words, c, [], rnd);
        if d.result.Ok? then FilledWithinDistinct(d.result.value, words); d
        else d
  }

  /** The imperative `word`: the same loop, growing a local `Set`. */
  method Word(category: string, count: Option<int>, explicit: seq<string>,
              options: Options, rnd: seq<Random>) returns (r: Result<StringSet>, rest: seq<Random>)
    ensures Drawn(r, rest) == SampleWords(category, count, explicit, options, rnd)
  {
    var words := Words(category, explicit, options);
    if words == [] {
      return Err(NoWords(category)), rnd;
    }
    var c := OrDefault(count, 1);
    if c > |words| {
      return Err(TooFewWords(c, |words|)), rnd;
    }
    var chosen: StringSet := [];
    var i := 0;
    while |chosen| < c
      invariant 0 <= i <= |rnd|
      invariant Elements(chosen) <= Elements(words)
      invariant Fill(words, c, chosen, rnd[i..]) == Fill(words, c, [], rnd)
      decreases |rnd| - i
    {
      if i == |rnd| {
        return Err(OutOfDraws), [];
      }
      assert rnd[i..][1..] == rnd[i + 1..];
      var index := Pick(rnd[i], |words|);
      chosen := Add(chosen, words[index]);
      i := i + 1;
    }
    return Ok(chosen), rnd[i..];
  }

  /** `index.toString()` for the indices 0 to 9. */
  const DigitStrings: seq<string> := ["0", "1", "2", "3", "4", "5", "6", "7", "8", "9"]

  predicate IsDigit(ch: char) { '0' <= ch <= '9' }

  /** A set of digit strings joined with `''` has one distinct digit per member. */
  lemma {:induction false} JoinDigits(v: StringSet)
    requires Elements(v) <= Elements(DigitStrings)
    ensures |Join(v, "")| == |v|
    ensures forall k :: 0 <= k < |v| ==> v[k] == [Join(v, "")[k]] && IsDigit(Join(v, "")[k])
  {
    JoinEmptySeparator(v);
    ConcatDigits(v);
  }

  lemma {:induction false} ConcatDigits(v: seq<string>)
    requires Elements(v) <= Elements(DigitStrings)
    ensures |Concat(v)| == |v|
    ensures forall k :: 0 <= k < |v| ==> v[k] == [Concat(v)[k]] && IsDigit(Concat(v)[k])
  {
    if v != [] {
      assert v[0] in Elements(DigitStrings);
      assert Elements(v[1..]) <= Elements(DigitStrings);
      ConcatDigits(v[1..]);
      assert Concat(v) == v[0] + Concat(v[1..]);
      forall k | 0 <= k < |v|
        ensures v[k] == [Concat(v)[k]] && IsDigit(Concat(v)[k])
      {
        if k > 0 {
          assert v[k] == v[1..][k - 1];
        }
      }
    }
  }

  /** `digits(count)(options)`: the options are not used. */
  function SampleDigits(count: Option<int>, rnd: seq<Random>): (d: Drawn<string>)
    ensures var c := OrDefault(count, 4);
      && (d.result.Err? ==> d.result.error == OutOfDraws)
      && (c > 10 ==> d.result == Err(OutOfDraws))
      && (d.result.Ok? ==> |d.result.value| == Max(c, 0))
      && (d.result.Ok? ==> forall k :: 0 <= k < |d.result.value| ==> IsDigit(d.result.value[k]))
      && (d.result.Ok? ==> NoDup(d.result.value))
  {
    var c := OrDefault(count, 4);
    var f := Fill(DigitStrings, c, [], rnd);
    if f.result.Ok? then
      var v := f.result.value;
      JoinDigits(v);
      FilledWithinDistinct(v, DigitStrings);
      NoDupCard(DigitStrings);
      Drawn(Ok(Join(v, "")), f.rest)
    else Drawn(Err(f.result.error), f.rest)
  }

  /** The imperative `digits`: the same loop over the ten digit strings. */
  method Digits(count: Option<int>, rnd: seq<Random>) returns (r: Result<string>, rest: seq<Random>)
    ensures Drawn(r, rest) == SampleDigits(count, rnd)
  {
    var c := OrDefault(count, 4);
    var chosen: StringSet := [];
    var i := 0;
    while |chosen| < c
      invariant 0 <= i <= |rnd|
      invariant Elements(chosen) <= Elements(DigitStrings)
      invariant Fill(DigitStrings, c, chosen, rnd[i..]) == Fill(DigitStrings, c, [], rnd)
      decreases |rnd| - i
    {
      if i == |rnd| {
        return Err(OutOfDraws), [];
      }
      assert rnd[i..][1..] == rnd[i + 1..];
      var index := Pick(rnd[i], 10);
      chosen := Add(chosen, DigitStrings[index]);
      i := i + 1;
    }
    return Ok(Join(chosen, "")), rnd[i..];
  }
}
