/** Values shared by every stage of the slug pipeline: the options record,
    the shapes a slug part may resolve to, errors, and the random oracle. */
module SlugTypes {

  /** One value of `Math.random()`: a real in [0, 1). */
  type Random = r: real | 0.0 <= r < 1.0

  datatype Option<+T> = None | Some(value: T)

  /** The errors the pipeline raises. `OutOfDraws` exists only in the model:
      the source keeps drawing forever, the model stops when its draws run out. */
  datatype Error =
    | NoWords(category: string)
    | TooFewWords(wanted: int, available: nat)
    | InvalidOutput
    | RetriesExhausted(maxAttempts: Option<int>)
    | OutOfDraws

  datatype Result<+T> = Ok(value: T) | Err(error: Error)

  /** The outcome of a step that consumes random draws, with the draws it left. */
  datatype Drawn<+T> = Drawn(result: Result<T>, rest: seq<Random>)

  /** Locale code -> category name -> word list. */
  type Dictionary = map<string, map<string, seq<string>>>

  /** The caller's options; `None` is an absent key. */
  datatype Options = Options(
    cleanString: Option<string -> string>,
    dictionary: Option<Dictionary>,
    locale: Option<string>,
    separator: Option<string>,
    transform: Option<string -> string>)

  const NoOptions := Options(None, None, None, None, None)

  predicate NoDup<T(==)>(s: seq<T>) {
    forall i, j :: 0 <= i < j < |s| ==> s[i] != s[j]
  }

  /** A JavaScript `Set<string>`: no duplicates, kept in insertion order. */
  type StringSet = s: seq<string> | NoDup(s) witness []

  /** What a slug part resolves to: a string, a `Set`, an array, or anything else. */
  datatype Output = Text(s: string) | SetOf(elems: StringSet) | ArrayOf(items: seq<string>) | Unsupported

  function Max(a: int, b: int): int { if a < b then b else a }

  /** `Array.prototype.join(sep)`. */
  function Join(xs: seq<string>, sep: string): (r: string)
    ensures xs == [] ==> r == []
    ensures |xs| == 1 ==> r == xs[0]
  {
    if xs == [] then [] else if |xs| == 1 then xs[0] else xs[0] + sep + Join(xs[1..], sep)
  }

  /** Joining `xs + [x]` puts the separator before the last element. */
  lemma {:induction false} JoinSnoc(xs: seq<string>, x: string, sep: string)
    requires xs != []
    ensures Join(xs + [x], sep) == Join(xs, sep) + sep + x
  {
    if |xs| == 1 {
      assert xs + [x] == [xs[0], x];
    } else {
      assert (xs + [x])[1..] == xs[1..] + [x];
      JoinSnoc(xs[1..], x, sep);
    }
  }

  /** The last element of a join of two or more follows the last separator. */
  lemma JoinLast(xs: seq<string>, sep: string)
    requires |xs| >= 2
    ensures Join(xs, sep) == Join(xs[..|xs| - 1], sep) + sep + xs[|xs| - 1]
  {
    assert xs == xs[..|xs| - 1] + [xs[|xs| - 1]];
    JoinSnoc(xs[..|xs| - 1], xs[|xs| - 1], sep);
  }

  /** `s.endsWith(tail)`. */
  predicate EndsWith(s: string, tail: string) {
    |tail| <= |s| && s[|s| - |tail|..] == tail
  }

  /** A joined list ends with the separator and its last element. */
  lemma JoinEndsWithLast(xs: seq<string>, sep: string)
    requires |xs| >= 2
    ensures EndsWith(Join(xs, sep), sep + xs[|xs| - 1])
  {
    var pre := Join(xs[..|xs| - 1], sep);
    JoinLast(xs, sep);
    assert Join(xs, sep) == pre + (sep + xs[|xs| - 1]);
    assert Join(xs, sep)[|pre|..] == sep + xs[|xs| - 1];
  }

  /** Joining three strings. */
  lemma JoinThree(xs: seq<string>, sep: string)
    requires |xs| == 3
    ensures Join(xs, sep) == xs[0] + sep + (xs[1] + sep + xs[2])
  {
    assert xs[1..][1..] == xs[2..];
  }

  /** Joining with the empty separator is plain concatenation. */
  function Concat(xs: seq<string>): string {
    if xs == [] then [] else xs[0] + Concat(xs[1..])
  }

  lemma {:induction false} JoinEmptySeparator(xs: seq<string>)
    ensures Join(xs, "") == Concat(xs)
  {
    if |xs| > 1 {
      JoinEmptySeparator(xs[1..]);
    }
  }
}
