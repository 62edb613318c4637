/** The list idioms the wizard steps share: `xs.filter(x => x !== v)`, `xs.includes(v)`, the
    include-or-exclude toggle `xs.includes(v) ? xs.filter(x => x !== v) : [...xs, v]` and the
    add-a-typed-entry pattern that trims the input and appends it when it is new. */
module Lists {
  import opened Text

  predicate NoDup<T(==)>(xs: seq<T>) {
    forall i, j | 0 <= i < j < |xs| :: xs[i] != xs[j]
  }

  lemma NoDupCons<T>(x: T, xs: seq<T>)
    requires NoDup(xs) && x !in xs
    ensures NoDup([x] + xs)
  {
  }

  lemma NoDupTail<T>(xs: seq<T>)
    requires NoDup(xs) && xs != []
    ensures NoDup(xs[1..]) && xs[0] !in xs[1..]
  {
    forall j | 0 <= j < |xs| - 1 ensures xs[1..][j] != xs[0] {
      assert xs[1..][j] == xs[j + 1];
    }
  }

  /** `xs.filter(x => x !== v)`. */
  function Remove<T(==)>(xs: seq<T>, v: T): (r: seq<T>)
    ensures |r| <= |xs|
    ensures v !in r
    ensures forall x | x in r :: x in xs && x != v
    ensures forall x | x in xs && x != v :: x in r
  {
    if xs == [] then []
    else if xs[0] == v then Remove(xs[1..], v)
    else [xs[0]] + Remove(xs[1..], v)
  }

  /** Filtering out a value that is not there returns the list itself. */
  lemma {:induction false} RemoveAbsent<T>(xs: seq<T>, v: T)
    requires v !in xs
    ensures Remove(xs, v) == xs
  {
    if xs != [] {
      RemoveAbsent(xs[1..], v);
    }
  }

  /** Filtering a duplicate-free list drops exactly the one position holding the value and keeps
      the others in order. */
  lemma {:induction false} RemoveAt<T>(xs: seq<T>, v: T, k: nat)
    requires NoDup(xs) && k < |xs| && xs[k] == v
    ensures Remove(xs, v) == xs[..k] + xs[k + 1..]
  {
    if k == 0 {
      RemoveAbsent(xs[1..], v);
    } else {
      RemoveAt(xs[1..], v, k - 1);
      assert xs[1..][..k - 1] == xs[1..k];
      assert xs[1..][k..] == xs[k + 1..];
      assert xs[..k] == [xs[0]] + xs[1..k];
    }
  }

  /** The filter keeps the surviving elements in their original order: it distributes over
      concatenation. */
  lemma {:induction false} RemoveAppend<T>(a: seq<T>, b: seq<T>, v: T)
    ensures Remove(a + b, v) == Remove(a, v) + Remove(b, v)
  {
    if a != [] {
      assert (a + b)[1..] == a[1..] + b;
      RemoveAppend(a[1..], b, v);
    } else {
      assert a + b == b;
    }
  }

  /** Filtering keeps a list duplicate-free. */
  lemma {:induction false} RemoveNoDup<T>(xs: seq<T>, v: T)
    requires NoDup(xs)
    ensures NoDup(Remove(xs, v))
  {
    if xs != [] {
      RemoveNoDup(xs[1..], v);
      if xs[0] != v {
        assert xs[0] !in xs[1..];
        assert xs[0] !in Remove(xs[1..], v);
      }
    }
  }

  /** Filtering out a value that is there makes the list strictly shorter. */
  lemma {:induction false} RemovePresentShorter<T>(xs: seq<T>, v: T)
    requires v in xs
    ensures |Remove(xs, v)| < |xs|
  {
    if xs[0] != v {
      RemovePresentShorter(xs[1..], v);
    }
  }

  /** A duplicate-free list drawn from `ys` has at most `|ys|` elements. */
  lemma {:induction false} NoDupWithinBound<T>(xs: seq<T>, ys: seq<T>)
    requires NoDup(xs) && forall x | x in xs :: x in ys
    ensures |xs| <= |ys|
  {
    if xs != [] {
      NoDupTail(xs);
      RemovePresentShorter(ys, xs[0]);
      NoDupWithinBound(xs[1..], Remove(ys, xs[0]));
    }
  }

  /** `prev.includes(v) ? prev.filter(x => x !== v) : [...prev, v]`. */
  function Toggle<T(==)>(xs: seq<T>, v: T): seq<T> {
    if v in xs then Remove(xs, v) else xs + [v]
  }

  /** Toggling removes a present value (everywhere) and appends an absent one at the end. */
  lemma ToggleEffect<T>(xs: seq<T>, v: T)
    ensures v in xs ==> v !in Toggle(xs, v) && (forall x | x != v :: x in Toggle(xs, v) <==> x in xs)
    ensures v !in xs ==> Toggle(xs, v) == xs + [v]
    ensures v in Toggle(xs, v) <==> v !in xs
  {
  }

  /** Toggling keeps a list duplicate-free. */
  lemma ToggleNoDup<T>(xs: seq<T>, v: T)
    requires NoDup(xs)
    ensures NoDup(Toggle(xs, v))
  {
    if v in xs {
      RemoveNoDup(xs, v);
    }
  }

  /** Toggling an absent value twice gives back the original list. */
  lemma ToggleTwiceAbsent<T>(xs: seq<T>, v: T)
    requires v !in xs
    ensures Toggle(Toggle(xs, v), v) == xs
  {
    RemoveAppend(xs, [v], v);
    RemoveAbsent(xs, v);
    assert Remove([v], v) == [];
  }

  /** Toggling a present value of a duplicate-free list twice moves it to the end. */
  lemma ToggleTwicePresent<T>(xs: seq<T>, v: T, k: nat)
    requires NoDup(xs) && k < |xs| && xs[k] == v
    ensures Toggle(Toggle(xs, v), v) == xs[..k] + xs[k + 1..] + [v]
  {
    RemoveAt(xs, v, k);
  }

  /** An entry typed into an input box: non-empty and with no surrounding white space. */
  predicate Trimmed(d: string) {
    d != "" && JsTrim(d) == d
  }

  /** A list of typed entries as the steps keep it: duplicate-free, each entry trimmed. */
  predicate WellKept(xs: seq<string>) {
    NoDup(xs) && forall i | 0 <= i < |xs| :: Trimmed(xs[i])
  }

  /** `const v = input.trim(); if (v && !xs.includes(v)) { setXs([...xs, v]); setInput('') }`:
      the new list and the new input. */
  function AddTrimmed(xs: seq<string>, input: string): (r: (seq<string>, string))
    ensures var v := JsTrim(input);
      if v != "" && v !in xs then r == (xs + [v], "") else r == (xs, input)
  {
    var v := JsTrim(input);
    if v != "" && v !in xs then (xs + [v], "") else (xs, input)
  }

  /** Adding keeps a list duplicate-free. */
  lemma AddTrimmedNoDup(xs: seq<string>, input: string)
    requires NoDup(xs)
    ensures NoDup(AddTrimmed(xs, input).0)
  {
  }

  /** Adding keeps the list well kept. */
  lemma AddTrimmedKeeps(xs: seq<string>, input: string)
    requires WellKept(xs)
    ensures WellKept(AddTrimmed(xs, input).0)
  {
    var v := JsTrim(input);
    JsTrimIdempotent(input);
    if v != "" && v !in xs {
      var ys := xs + [v];
      forall i | 0 <= i < |ys| ensures Trimmed(ys[i]) {
        if i < |xs| { assert ys[i] == xs[i]; }
      }
    }
  }

  /** Submitting the same text twice adds it once: the second submission changes nothing. */
  lemma AddTrimmedTwice(xs: seq<string>, input: string)
    ensures var (ys, rest) := AddTrimmed(xs, input); AddTrimmed(ys, rest) == (ys, rest)
  {
    var v := JsTrim(input);
    if v != "" && v !in xs {
      assert JsTrim("") == "";
    }
  }

  /** Removing keeps the list well kept. */
  lemma RemoveKeeps(xs: seq<string>, v: string)
    requires WellKept(xs)
    ensures WellKept(Remove(xs, v))
  {
    RemoveNoDup(xs, v);
    forall i | 0 <= i < |Remove(xs, v)| ensures Trimmed(Remove(xs, v)[i]) {
      assert Remove(xs, v)[i] in xs;
    }
  }
}
