/** `spaceSlug(parts, options)`: merge the options over the defaults, resolve
    every part to a cleaned and transformed fragment, join the fragments. */
module Assembly {
  import opened SlugTypes
  import opened Sampling
  import opened Clean

  /** `{ ...base, ...over }`: a key present in `over` wins, the others come from `base`. */
  function Merge(base: Options, over: Options): (r: Options)
    ensures r.locale == if over.locale.Some? then over.locale else base.locale
    ensures r.separator == if over.separator.Some? then over.separator else base.separator
    ensures r.dictionary == if over.dictionary.Some? then over.dictionary else base.dictionary
    ensures over.cleanString.Some? ==> r.cleanString == over.cleanString
    ensures over.cleanString.None? ==> r.cleanString == base.cleanString
    ensures over.transform.Some? ==> r.transform == over.transform
    ensures over.transform.None? ==> r.transform == base.transform
  {
    Options(
      if over.cleanString.Some? then over.cleanString else base.cleanString,
      if over.dictionary.Some? then over.dictionary else base.dictionary,
      if over.locale.Some? then over.locale else base.locale,
      if over.separator.Some? then over.separator else base.separator,
      if over.transform.Some? then over.transform else base.transform)
  }

  /** `spaceSlugDefaultOptions`, over the bundled word lists `defaultWords`. */
  function DefaultOptions(defaultWords: Dictionary): (r: Options)
    ensures r.locale == Some("en") && r.separator == Some("-") && r.dictionary == Some(defaultWords)
    ensures r.cleanString.None? && r.transform.None?
  {
    Options(None, Some(defaultWords), Some("en"), Some("-"), None)
  }

  /** `toLowerCase` on one character (ASCII letters only). */
  function LowerChar(ch: char): char {
    if 'A' <= ch <= 'Z' then (ch as int + 32) as char else ch
  }

  /** `toLowerCase`, the default transform. */
  function Lower(s: string): (r: string)
    ensures |r| == |s|
    ensures forall i :: 0 <= i < |s| ==> r[i] == LowerChar(s[i])
  {
    if s == [] then [] else [LowerChar(s[0])] + Lower(s[1..])
  }

  /** A part: a function of the merged options (which may draw random values),
      or a value given as it is. The closures `word(category)(count, explicit)` and
      `digits(count)` are named by their arguments; any other function is `Custom`. */
  datatype Part =
    | WordFn(category: string, count: Option<int>, explicit: seq<string>)
    | DigitsFn(count: Option<int>)
    | Custom(run: (Options, seq<Random>) -> Drawn<Output>)
    | Literal(value: Output)

  function SetOutput(d: Drawn<StringSet>): Drawn<Output> {
    Drawn(if d.result.Ok? then Ok(SetOf(d.result.value)) else Err(d.result.error), d.rest)
  }

  function TextOutput(d: Drawn<string>): Drawn<Output> {
    Drawn(if d.result.Ok? then Ok(Text(d.result.value)) else Err(d.result.error), d.rest)
  }

  /** `[adjective(1), noun(1), digits(2)]`. */
  function DefaultParts(): (r: seq<Part>)
    ensures |r| == 3 && BuiltinOnly(r)
    ensures r[0] == WordFn("adjectives", Some(1), []) && r[1] == WordFn("nouns", Some(1), [])
    ensures r[2] == DigitsFn(Some(2))
  {
    [WordFn("adjectives", Some(1), []), WordFn("nouns", Some(1), []), DigitsFn(Some(2))]
  }

  /** The parts used: the defaults when none are given. */
  function PartsOf(inputs: seq<Part>): (r: seq<Part>)
    ensures |r| > 0
    ensures |inputs| > 0 ==> r == inputs
    ensures |inputs| == 0 ==> r == DefaultParts()
    ensures BuiltinOnly(inputs) ==> BuiltinOnly(r)
  {
    if |inputs| == 0 then DefaultParts() else inputs
  }

  /** What one assembly derives from the options before resolving parts: the merged
      options, the separator, and the caller's own `cleanString`, if any. */
  datatype Settings = Settings(merged: Options, sep: string, customClean: Option<string -> string>)

  function SettingsOf(options: Options, defaultWords: Dictionary): (st: Settings)
    ensures st.merged.locale == if options.locale.Some? then options.locale else Some("en")
    ensures st.merged.dictionary == if options.dictionary.Some? then options.dictionary else Some(defaultWords)
    ensures st.sep == if options.separator.Some? then options.separator.value else "-"
    ensures st.customClean == options.cleanString
    ensures st.merged.transform == options.transform
  {
    var merged := Merge(DefaultOptions(defaultWords), options);
    Settings(merged, merged.separator.value, options.cleanString)
  }

  /** `_cleanString`: the caller's function, or `cleanString` with the merged separator. */
  function CleanWith(st: Settings, s: string): (r: string)
    ensures st.customClean.Some? ==> r == st.customClean.value(s)
    ensures st.customClean.None? ==> forall ch :: ch in r ==> IsAlnum(ch) || ch in st.sep
    ensures st.customClean.None? ==> r == [] || (!IsSpace(r[0]) && !IsSpace(r[|r| - 1]))
    ensures st.customClean.None? ==> r == CleanString(s, st.sep)
  {
    if st.customClean.Some? then st.customClean.value(s) else CleanString(s, st.sep)
  }

  /** `transformFn`: the merged transform, or lower-casing. */
  function TransformWith(st: Settings, s: string): (r: string)
    ensures st.merged.transform.Some? ==> r == st.merged.transform.value(s)
    ensures st.merged.transform.None? ==> |r| == |s| && forall i :: 0 <= i < |r| ==> !('A' <= r[i] <= 'Z')
    ensures st.merged.transform.None? ==> r == Lower(s)
  {
    if st.merged.transform.Some? then st.merged.transform.value(s) else Lower(s)
  }

  /** Each element of a `Set` or an array, cleaned. */
  function CleanEach(st: Settings, xs: seq<string>): (r: seq<string>)
    ensures |r| == |xs| && forall i :: 0 <= i < |xs| ==> r[i] == CleanWith(st, xs[i])
  {
    if xs == [] then [] else [CleanWith(st, xs[0])] + CleanEach(st, xs[1..])
  }

  /** The fragment of one resolved value, before the transform; anything that is not
      a string, a `Set` or an array is refused. */
  function Fragment(out: Output, st: Settings): (r: Result<string>)
    ensures r.Err? <==> out.Unsupported?
    ensures r.Err? ==> r.error == InvalidOutput
    ensures out.Text? ==> r == Ok(CleanWith(st, out.s))
    ensures out.SetOf? ==> r == Ok(Join(CleanEach(st, out.elems), st.sep))
    ensures out.ArrayOf? ==> r == Ok(Join(CleanEach(st, out.items), st.sep))
  {
    match out
    case Text(s) => Ok(CleanWith(st, s))
    case SetOf(elems) => Ok(Join(CleanEach(st, elems), st.sep))
    case ArrayOf(items) => Ok(Join(CleanEach(st, items), st.sep))
    case Unsupported => Err(InvalidOutput)
  }

  /** No part is a caller-supplied function: only `word`, `digits` and given values. */
  predicate BuiltinOnly(parts: seq<Part>) {
    parts == [] || (!parts[0].Custom? && BuiltinOnly(parts[1..]))
  }

  /** The errors `spaceSlug` raises on its own: sampling errors and invalid outputs. */
  predicate SlugError(e: Error) {
    e.NoWords? || e.TooFewWords? || e == InvalidOutput || e == OutOfDraws
  }

  /** The value a part resolves to: its function's output, or itself. */
  function Evaluate(p: Part, merged: Options, rnd: seq<Random>): Drawn<Output> {
    match p
    case WordFn(category, count, explicit) => SetOutput(SampleWords(category, count, explicit, merged, rnd))
    case DigitsFn(count) => TextOutput(SampleDigits(count, rnd))
    case Custom(run) => run(merged, rnd)
    case Literal(v) => Drawn(Ok(v), rnd)
  }

  /** `parts.map(...)`: one transformed fragment per part, in order; the first error stops it. */
  function Resolve(parts: seq<Part>, st: Settings, rnd: seq<Random>): (d: Drawn<seq<string>>)
    ensures d.result.Ok? ==> |d.result.value| == |parts|
  {
    if parts == [] then Drawn(Ok([]), rnd)
    else
      var e := Evaluate(parts[0], st.merged, rnd);
      if e.result.Err? then Drawn(Err(e.result.error), e.rest)
      else
        var f := Fragment(e.result.value, st);
        if f.Err? then Drawn(Err(f.error), e.rest)
        else
          var tail := Resolve(parts[1..], st, e.rest);
          if tail.result.Err? then tail
          else
            Drawn(Ok([TransformWith(st, f.value)] + tail.result.value), tail.rest)
  }

  /** `spaceSlug(inputs, options)`, drawing from `rnd`. */
  function SpaceSlug(inputs: seq<Part>, options: Options, defaultWords: Dictionary,
                     rnd: seq<Random>): (d: Drawn<string>)
    ensures BuiltinOnly(inputs) && d.result.Err? ==> SlugError(d.result.error)
  {
    var st := SettingsOf(options, defaultWords);
    var parts := PartsOf(inputs);
    ResolveErrors(parts, st, rnd);
    var r := Resolve(parts, st, rnd);
    if r.result.Ok? then Drawn(Ok(Join(r.result.value, st.sep)), r.rest)
    else Drawn(Err(r.result.error), r.rest)
  }

  /** A given value uses no draw; `word` and `digits` always produce a `Set` or a
      string, and fail only with a sampling error. */
  lemma EvaluateBuiltin(p: Part, merged: Options, rnd: seq<Random>)
    ensures var r := Evaluate(p, merged, rnd);
      && (p.Literal? ==> r == Drawn(Ok(p.value), rnd))
      && (p.WordFn? && r.result.Ok? ==> r.result.value.SetOf?)
      && (p.DigitsFn? && r.result.Ok? ==> r.result.value.Text?)
      && (!p.Custom? && r.result.Err? ==> SlugError(r.result.error) && r.result.error != InvalidOutput)
  {
  }

  /** Parts that are `word`, `digits` or given values fail only with a sampling
      error or an invalid output. */
  lemma {:induction false} ResolveErrors(parts: seq<Part>, st: Settings, rnd: seq<Random>)
    ensures var d := Resolve(parts, st, rnd);
      BuiltinOnly(parts) && d.result.Err? ==> SlugError(d.result.error)
  {
    if parts != [] && BuiltinOnly(parts) {
      var e := Evaluate(parts[0], st.merged, rnd);
      EvaluateBuiltin(parts[0], st.merged, rnd);
      if e.result.Ok? && Fragment(e.result.value, st).Ok? {
        ResolveErrors(parts[1..], st, e.rest);
      }
    }
  }

  /** A given value's fragment is the value cleaned and transformed, wherever it stands. */
  lemma {:induction false} ResolveLiteralAt(parts: seq<Part>, st: Settings, rnd: seq<Random>, i: nat)
    requires i < |parts| && parts[i].Literal?
    ensures var r := Resolve(parts, st, rnd);
      r.result.Ok? ==>
        && Fragment(parts[i].value, st).Ok?
        && r.result.value[i] == TransformWith(st, Fragment(parts[i].value, st).value)
  {
    if i > 0 {
      var e := Evaluate(parts[0], st.merged, rnd);
      if e.result.Ok? && Fragment(e.result.value, st).Ok? {
        assert parts[1..][i - 1] == parts[i];
        ResolveLiteralAt(parts[1..], st, e.rest, i - 1);
      }
    }
  }

  /** A given value of an unsupported kind makes the resolution fail. */
  lemma {:induction false} ResolveRejectsUnsupported(parts: seq<Part>, st: Settings, rnd: seq<Random>, i: nat)
    requires i < |parts| && parts[i].Literal? && parts[i].value.Unsupported?
    ensures Resolve(parts, st, rnd).result.Err?
  {
    var e := Evaluate(parts[0], st.merged, rnd);
    if i == 0 {
      assert e.result == Ok(Unsupported);
    } else if e.result.Ok? && Fragment(e.result.value, st).Ok? {
      assert parts[1..][i - 1] == parts[i];
      ResolveRejectsUnsupported(parts[1..], st, e.rest, i - 1);
    }
  }

  /** Given values of supported kinds always resolve, and use no draw. */
  lemma {:induction false} ResolveLiterals(parts: seq<Part>, st: Settings, rnd: seq<Random>)
    requires forall i :: 0 <= i < |parts| ==> parts[i].Literal? && !parts[i].value.Unsupported?
    ensures Resolve(parts, st, rnd).result.Ok? && Resolve(parts, st, rnd).rest == rnd
  {
    if parts != [] {
      assert forall i :: 0 <= i < |parts[1..]| ==> parts[1..][i] == parts[i + 1];
      ResolveLiterals(parts[1..], st, rnd);
    }
  }

  /** A given value of an unsupported kind, anywhere, makes `spaceSlug` fail: with
      the invalid-output error, or with the error of a part before it. */
  lemma UnsupportedRejected(inputs: seq<Part>, options: Options, defaultWords: Dictionary,
                            rnd: seq<Random>, i: nat)
    requires i < |inputs| && inputs[i].Literal? && inputs[i].value.Unsupported?
    ensures SpaceSlug(inputs, options, defaultWords, rnd).result.Err?
  {
    ResolveRejectsUnsupported(inputs, SettingsOf(options, defaultWords), rnd, i);
  }

  /** `toLowerCase` leaves a string without capitals as it is. */
  lemma LowerKeeps(s: string)
    requires forall i :: 0 <= i < |s| ==> !('A' <= s[i] <= 'Z')
    ensures Lower(s) == s
  {
  }

  /** `toLowerCase` works character by character. */
  lemma LowerConcat(a: string, b: string)
    ensures Lower(a + b) == Lower(a) + Lower(b)
  {
    assert forall i :: 0 <= i < |a| + |b| ==> Lower(a + b)[i] == LowerChar((a + b)[i]);
  }

  /** Resolving a non-empty list: the first part's fragment, then the rest on the draws it left. */
  lemma ResolveCons(parts: seq<Part>, st: Settings, rnd: seq<Random>)
    requires parts != []
    ensures var r, e := Resolve(parts, st, rnd), Evaluate(parts[0], st.merged, rnd);
      r.result.Ok? ==>
        && e.result.Ok? && Fragment(e.result.value, st).Ok?
        && Resolve(parts[1..], st, e.rest).result.Ok?
        && r.result.value
           == [TransformWith(st, Fragment(e.result.value, st).value)] + Resolve(parts[1..], st, e.rest).result.value
        && r.rest == Resolve(parts[1..], st, e.rest).rest
  {
  }

  /** The slug is the fragments of the parts joined with the separator, one per part. */
  lemma SlugJoinsFragments(inputs: seq<Part>, options: Options, defaultWords: Dictionary, rnd: seq<Random>)
    ensures var st, d := SettingsOf(options, defaultWords), SpaceSlug(inputs, options, defaultWords, rnd);
      var r := Resolve(PartsOf(inputs), st, rnd);
      && (d.result.Ok? <==> r.result.Ok?)
      && (d.result.Ok? ==> |r.result.value| == |PartsOf(inputs)| && d.result.value == Join(r.result.value, st.sep))
      && (d.result.Err? ==> d.result.error == r.result.error)
      && d.rest == r.rest
  {
  }

  /** Without options, `adjective(1)` or `noun(1)` yields one word of its list,
      cleaned with `-` and lower-cased. */
  lemma OneWordFragment(defaultWords: Dictionary, category: string, rnd: seq<Random>)
    ensures var st := SettingsOf(NoOptions, defaultWords);
      var e := Evaluate(WordFn(category, Some(1), []), st.merged, rnd);
      e.result.Ok? ==>
        && e.result.value.SetOf? && |e.result.value.elems| == 1
        && e.result.value.elems[0] in Words(category, [], DefaultOptions(defaultWords))
        && Fragment(e.result.value, st).Ok?
        && TransformWith(st, Fragment(e.result.value, st).value) == Lower(CleanString(e.result.value.elems[0], "-"))
  {
    var st := SettingsOf(NoOptions, defaultWords);
    var w := SampleWords(category, Some(1), [], st.merged, rnd);
    assert Evaluate(WordFn(category, Some(1), []), st.merged, rnd) == SetOutput(w);
    if w.result.Ok? {
      var v := w.result.value;
      assert v == [v[0]];
      assert v[0] in Elements(v);
      assert Words(category, [], st.merged) == Words(category, [], DefaultOptions(defaultWords));
      assert CleanEach(st, v) == [CleanString(v[0], "-")];
    }
  }

  /** Cleaning with `-` and lower-casing keep a string of digits. */
  lemma DigitsKept(ds: string)
    requires forall i :: 0 <= i < |ds| ==> IsDigit(ds[i])
    ensures Lower(CleanString(ds, "-")) == ds
  {
    CleanAlnum(ds, "-");
    LowerKeeps(ds);
  }

  /** `digits(2)` yields two distinct digits, which cleaning and lower-casing keep. */
  lemma TwoDigitFragment(st: Settings, rnd: seq<Random>)
    requires st.sep == "-" && st.customClean.None? && st.merged.transform.None?
    ensures var e := Evaluate(DigitsFn(Some(2)), st.merged, rnd);
      e.result.Ok? ==>
        && e.result.value.Text? && |e.result.value.s| == 2
        && IsDigit(e.result.value.s[0]) && IsDigit(e.result.value.s[1])
        && e.result.value.s[0] != e.result.value.s[1]
        && Fragment(e.result.value, st).Ok?
        && TransformWith(st, Fragment(e.result.value, st).value) == e.result.value.s
  {
    var g := SampleDigits(Some(2), rnd);
    assert Evaluate(DigitsFn(Some(2)), st.merged, rnd) == TextOutput(g);
    if g.result.Ok? {
      DigitsKept(g.result.value);
    }
  }

  /** The fragment a successfully evaluated part contributes. */
  function FragmentOf(e: Drawn<Output>, st: Settings): string
    requires e.result.Ok? && Fragment(e.result.value, st).Ok?
  {
    TransformWith(st, Fragment(e.result.value, st).value)
  }

  /** Three parts resolve to three fragments, each on the draws the one before left. */
  lemma ResolveThree(parts: seq<Part>, st: Settings, rnd: seq<Random>)
    requires |parts| == 3
    ensures var r := Resolve(parts, st, rnd);
      var e0 := Evaluate(parts[0], st.merged, rnd);
      var e1 := Evaluate(parts[1], st.merged, e0.rest);
      var e2 := Evaluate(parts[2], st.merged, e1.rest);
      r.result.Ok? ==>
        && e0.result.Ok? && Fragment(e0.result.value, st).Ok?
        && e1.result.Ok? && Fragment(e1.result.value, st).Ok?
        && e2.result.Ok? && Fragment(e2.result.value, st).Ok?
        && r.result.value == [FragmentOf(e0, st), FragmentOf(e1, st), FragmentOf(e2, st)]
  {
    var r := Resolve(parts, st, rnd);
    if r.result.Ok? {
      ResolveCons(parts, st, rnd);
      var e0 := Evaluate(parts[0], st.merged, rnd);
      ResolveCons(parts[1..], st, e0.rest);
      var e1 := Evaluate(parts[1], st.merged, e0.rest);
      ResolveCons(parts[2..], st, e1.rest);
      assert parts[1..][1..] == parts[2..] && parts[2..][1..] == [];
    }
  }

  /** With no parts and no options the slug is an adjective, a noun and two distinct
      digits, each cleaned and lower-cased, joined with `-`. */
  lemma DefaultSlugShape(defaultWords: Dictionary, rnd: seq<Random>)
    ensures var d := SpaceSlug([], NoOptions, defaultWords, rnd);
      d.result.Ok? ==>
        exists a, n, ds ::
          && a in Words("adjectives", [], DefaultOptions(defaultWords))
          && n in Words("nouns", [], DefaultOptions(defaultWords))
          && |ds| == 2 && IsDigit(ds[0]) && IsDigit(ds[1]) && ds[0] != ds[1]
          && d.result.value == Lower(CleanString(a, "-")) + "-" + (Lower(CleanString(n, "-")) + "-" + ds)
  {
    var st := SettingsOf(NoOptions, defaultWords);
    var d := SpaceSlug([], NoOptions, defaultWords, rnd);
    var parts := DefaultParts();
    var r := Resolve(parts, st, rnd);
    if d.result.Ok? {
      assert r.result.Ok? && d.result.value == Join(r.result.value, "-") by {
        SlugJoinsFragments([], NoOptions, defaultWords, rnd);
      }
      var e0 := Evaluate(parts[0], st.merged, rnd);
      var e1 := Evaluate(parts[1], st.merged, e0.rest);
      var e2 := Evaluate(parts[2], st.merged, e1.rest);
      ResolveThree(parts, st, rnd);
      OneWordFragment(defaultWords, "adjectives", rnd);
      OneWordFragment(defaultWords, "nouns", e0.rest);
      TwoDigitFragment(st, e1.rest);
      var a, n, ds := e0.result.value.elems[0], e1.result.value.elems[0], e2.result.value.s;
      assert d.result.value == Lower(CleanString(a, "-")) + "-" + (Lower(CleanString(n, "-")) + "-" + ds) by {
        JoinThree(r.result.value, "-");
      }
    }
  }

  /** A given value as the last part ends the slug, after the separator. */
  lemma LiteralLastPart(inputs: seq<Part>, options: Options, defaultWords: Dictionary, rnd: seq<Random>)
    requires |inputs| >= 2 && inputs[|inputs| - 1].Literal?
    ensures var st, d := SettingsOf(options, defaultWords), SpaceSlug(inputs, options, defaultWords, rnd);
      var f := Fragment(inputs[|inputs| - 1].value, st);
      d.result.Ok? ==>
        && f.Ok?
        && EndsWith(d.result.value, st.sep + TransformWith(st, f.value))
  {
    var st := SettingsOf(options, defaultWords);
    var d := SpaceSlug(inputs, options, defaultWords, rnd);
    if d.result.Ok? {
      var r := Resolve(inputs, st, rnd);
      assert r.result.Ok? && d.result.value == Join(r.result.value, st.sep) by {
        SlugJoinsFragments(inputs, options, defaultWords, rnd);
      }
      ResolveLiteralAt(inputs, st, rnd, |inputs| - 1);
      JoinEndsWithLast(r.result.value, st.sep);
    }
  }

  /** Without options a string of lower-case letters and digits is its own fragment. */
  lemma PlainFragment(defaultWords: Dictionary, w: string)
    requires forall i :: 0 <= i < |w| ==> IsAlnum(w[i]) && !('A' <= w[i] <= 'Z')
    ensures var st := SettingsOf(NoOptions, defaultWords);
      st.sep == "-" && TransformWith(st, CleanWith(st, w)) == w
  {
    CleanAlnum(w, "-");
    LowerKeeps(w);
  }

  /** Without options, a given string of lower-case letters and digits (`'ezra'`)
      after any first part ends the slug, after `-`. */
  lemma EndsWithText(first: Part, w: string, defaultWords: Dictionary, rnd: seq<Random>)
    requires forall i :: 0 <= i < |w| ==> IsAlnum(w[i]) && !('A' <= w[i] <= 'Z')
    ensures var d := SpaceSlug([first, Literal(Text(w))], NoOptions, defaultWords, rnd);
      d.result.Ok? ==> EndsWith(d.result.value, "-" + w)
  {
    PlainFragment(defaultWords, w);
    LiteralLastPart([first, Literal(Text(w))], NoOptions, defaultWords, rnd);
  }

  /** Without options, two strings of lower-case letters and digits in a list make
      the fragment `w1-w2`. */
  lemma PlainPair(defaultWords: Dictionary, w1: string, w2: string)
    requires forall i :: 0 <= i < |w1| ==> IsAlnum(w1[i]) && !('A' <= w1[i] <= 'Z')
    requires forall i :: 0 <= i < |w2| ==> IsAlnum(w2[i]) && !('A' <= w2[i] <= 'Z')
    ensures var st := SettingsOf(NoOptions, defaultWords);
      TransformWith(st, Join(CleanEach(st, [w1, w2]), st.sep)) == w1 + "-" + w2
  {
    var st := SettingsOf(NoOptions, defaultWords);
    assert CleanWith(st, w1) == w1 by {
      CleanAlnum(w1, "-");
    }
    assert CleanWith(st, w2) == w2 by {
      CleanAlnum(w2, "-");
    }
    assert CleanEach(st, [w1, w2]) == [w1, w2];
    assert Join([w1, w2], st.sep) == w1 + "-" + w2;
    LowerKeepsDashed(w1, w2);
  }

  lemma LowerKeepsDashed(w1: string, w2: string)
    requires forall i :: 0 <= i < |w1| ==> !('A' <= w1[i] <= 'Z')
    requires forall i :: 0 <= i < |w2| ==> !('A' <= w2[i] <= 'Z')
    ensures Lower(w1 + "-" + w2) == w1 + "-" + w2
  {
    assert Lower(w1 + "-") == w1 + "-" by {
      LowerConcat(w1, "-");
      LowerKeeps(w1);
    }
    assert Lower(w2) == w2 by {
      LowerKeeps(w2);
    }
    LowerConcat(w1 + "-", w2);
  }

  /** `LiteralLastPart` with the last fragment already worked out. */
  lemma LiteralLastTail(inputs: seq<Part>, options: Options, defaultWords: Dictionary, rnd: seq<Random>, tail: string)
    requires |inputs| >= 2 && inputs[|inputs| - 1].Literal?
    requires var st := SettingsOf(options, defaultWords);
      var f := Fragment(inputs[|inputs| - 1].value, st);
      f.Ok? && st.sep + TransformWith(st, f.value) == tail
    ensures var d := SpaceSlug(inputs, options, defaultWords, rnd);
      d.result.Ok? ==> EndsWith(d.result.value, tail)
  {
    LiteralLastPart(inputs, options, defaultWords, rnd);
  }

  /** Without options an array, or a `Set`, of two such strings is `-w1-w2` once
      the separator before it is added. */
  lemma PlainPairFragment(defaultWords: Dictionary, out: Output, w1: string, w2: string)
    requires forall i :: 0 <= i < |w1| ==> IsAlnum(w1[i]) && !('A' <= w1[i] <= 'Z')
    requires forall i :: 0 <= i < |w2| ==> IsAlnum(w2[i]) && !('A' <= w2[i] <= 'Z')
    requires out == ArrayOf([w1, w2]) || (out.SetOf? && out.elems == [w1, w2])
    ensures var st := SettingsOf(NoOptions, defaultWords);
      Fragment(out, st).Ok? && st.sep + TransformWith(st, Fragment(out, st).value) == "-" + (w1 + "-" + w2)
  {
    var st := SettingsOf(NoOptions, defaultWords);
    var frag := Join(CleanEach(st, [w1, w2]), st.sep);
    assert Fragment(out, st) == Ok(frag);
    assert TransformWith(st, frag) == w1 + "-" + w2 by {
      PlainPair(defaultWords, w1, w2);
    }
    assert st.sep == "-";
  }

  /** Only lower-case letters and digits. */
  predicate Plain(w: string) {
    w == [] || (IsAlnum(w[0]) && !('A' <= w[0] <= 'Z') && Plain(w[1..]))
  }

  lemma {:induction false} PlainChars(w: string)
    requires Plain(w)
    ensures forall i :: 0 <= i < |w| ==> IsAlnum(w[i]) && !('A' <= w[i] <= 'Z')
  {
    if w != [] {
      PlainChars(w[1..]);
      assert forall i :: 1 <= i < |w| ==> w[i] == w[1..][i - 1];
    }
  }

  lemma PlainPairTail(defaultWords: Dictionary, out: Output, w1: string, w2: string)
    requires Plain(w1) && Plain(w2)
    requires out == ArrayOf([w1, w2]) || (out.SetOf? && out.elems == [w1, w2])
    ensures var st := SettingsOf(NoOptions, defaultWords);
      Fragment(out, st).Ok? && st.sep + TransformWith(st, Fragment(out, st).value) == "-" + (w1 + "-" + w2)
  {
    PlainChars(w1);
    PlainChars(w2);
    PlainPairFragment(defaultWords, out, w1, w2);
  }

  /** Without options, a given array of two such strings (`['ezra', 'holocron']`)
      after any first part ends the slug as `-ezra-holocron` does. */
  lemma EndsWithArray(first: Part, w1: string, w2: string, defaultWords: Dictionary, rnd: seq<Random>)
    requires Plain(w1) && Plain(w2)
    ensures var d := SpaceSlug([first, Literal(ArrayOf([w1, w2]))], NoOptions, defaultWords, rnd);
      d.result.Ok? ==> EndsWith(d.result.value, "-" + (w1 + "-" + w2))
  {
    var inputs := [first, Literal(ArrayOf([w1, w2]))];
    var st := SettingsOf(NoOptions, defaultWords);
    var tail := "-" + (w1 + "-" + w2);
    assert Fragment(inputs[|inputs| - 1].value, st).Ok?
      && st.sep + TransformWith(st, Fragment(inputs[|inputs| - 1].value, st).value) == tail by {
      PlainPairTail(defaultWords, ArrayOf([w1, w2]), w1, w2);
    }
    LiteralLastTail(inputs, NoOptions, defaultWords, rnd, tail);
  }

  /** The same for a `Set` of two such strings (`new Set(['ezra', 'holocron'])`). */
  lemma EndsWithSet(first: Part, v: StringSet, defaultWords: Dictionary, rnd: seq<Random>)
    requires |v| == 2
    requires Plain(v[0]) && Plain(v[1])
    ensures var d := SpaceSlug([first, Literal(SetOf(v))], NoOptions, defaultWords, rnd);
      d.result.Ok? ==> EndsWith(d.result.value, "-" + (v[0] + "-" + v[1]))
  {
    var inputs := [first, Literal(SetOf(v))];
    var st := SettingsOf(NoOptions, defaultWords);
    var tail := "-" + (v[0] + "-" + v[1]);
    assert Fragment(inputs[|inputs| - 1].value, st).Ok?
      && st.sep + TransformWith(st, Fragment(inputs[|inputs| - 1].value, st).value) == tail by {
      assert v == [v[0], v[1]];
      PlainPairTail(defaultWords, SetOf(v), v[0], v[1]);
    }
    LiteralLastTail(inputs, NoOptions, defaultWords, rnd, tail);
  }

  /** Given strings as parts, in order. */
  function TextParts(texts: seq<string>): (r: seq<Part>)
    ensures |r| == |texts|
    ensures forall i :: 0 <= i < |texts| ==> r[i] == Literal(Text(texts[i]))
  {
    if texts == [] then [] else [Literal(Text(texts[0]))] + TextParts(texts[1..])
  }

  /** With separator `''` and the default cleaning and transform, a given string's
      fragment is its letters and digits, lower-cased. */
  lemma EmptySeparatorFragment(t: string, st: Settings)
    requires st.sep == "" && st.customClean.None? && st.merged.transform.None?
    ensures Fragment(Text(t), st).Ok? && TransformWith(st, Fragment(Text(t), st).value) == Lower(AlnumOnly(t))
  {
    assert CleanWith(st, t) == CleanString(t, "");
    EmptySeparatorKeepsAlnum(t);
  }

  /** Letters and digits of a concatenation, lower-cased, split after the first string. */
  lemma LowerAlnumCons(texts: seq<string>)
    requires texts != []
    ensures Lower(AlnumOnly(Concat(texts))) == Lower(AlnumOnly(texts[0])) + Lower(AlnumOnly(Concat(texts[1..])))
  {
    FilterConcat(IsAlnum, texts[0], Concat(texts[1..]));
    LowerConcat(AlnumOnly(texts[0]), AlnumOnly(Concat(texts[1..])));
  }

  /** Given strings resolve one after the other, using no draw. */
  lemma ResolveTextsCons(texts: seq<string>, st: Settings, rnd: seq<Random>)
    requires texts != []
    requires st.sep == "" && st.customClean.None? && st.merged.transform.None?
    requires Resolve(TextParts(texts[1..]), st, rnd).result.Ok?
    ensures var r, r1 := Resolve(TextParts(texts), st, rnd), Resolve(TextParts(texts[1..]), st, rnd);
      && r.result.Ok? && r.rest == r1.rest
      && r.result.value == [Lower(AlnumOnly(texts[0]))] + r1.result.value
  {
    var parts := TextParts(texts);
    assert parts[0] == Literal(Text(texts[0])) && parts[1..] == TextParts(texts[1..]);
    assert Evaluate(parts[0], st.merged, rnd) == Drawn(Ok(Text(texts[0])), rnd);
    EmptySeparatorFragment(texts[0], st);
  }

  /** With separator `''` and the default cleaning and transform, given strings
      resolve to fragments that run together to the letters and digits of all of
      them, lower-cased, and no draw is used. */
  lemma {:induction false} ResolveTexts(texts: seq<string>, st: Settings, rnd: seq<Random>)
    requires st.sep == "" && st.customClean.None? && st.merged.transform.None?
    ensures var r := Resolve(TextParts(texts), st, rnd);
      && r.result.Ok? && r.rest == rnd
      && Concat(r.result.value) == Lower(AlnumOnly(Concat(texts)))
  {
    if texts != [] {
      var head := Lower(AlnumOnly(texts[0]));
      var r1 := Resolve(TextParts(texts[1..]), st, rnd);
      ResolveTexts(texts[1..], st, rnd);
      ResolveTextsCons(texts, st, rnd);
      var fs := [head] + r1.result.value;
      assert Concat(fs) == head + Concat(r1.result.value) by {
        assert fs[1..] == r1.result.value;
      }
      LowerAlnumCons(texts);
    }
  }

  /** With separator `''` and the default cleaning and transform, a slug of given
      strings is their letters and digits, lower-cased, run together. */
  lemma EmptySeparatorSlug(texts: seq<string>, options: Options, defaultWords: Dictionary, rnd: seq<Random>)
    requires |texts| > 0
    requires options.separator == Some("") && options.cleanString.None? && options.transform.None?
    ensures SpaceSlug(TextParts(texts), options, defaultWords, rnd).result == Ok(Lower(AlnumOnly(Concat(texts))))
  {
    var st := SettingsOf(options, defaultWords);
    var r := Resolve(TextParts(texts), st, rnd);
    SlugJoinsFragments(TextParts(texts), options, defaultWords, rnd);
    ResolveTexts(texts, st, rnd);
    JoinEmptySeparator(r.result.value);
  }
}
