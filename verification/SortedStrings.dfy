/**
 Sorted lists of strings without repeats, as slices.Sort and slices.Compact leave them; the order is
 that of the bytes.
 */
module SortedStrings {
  predicate Before(a: string, b: string) {
    if b == [] then false
    else if a == [] then true
    else a[0] < b[0] || (a[0] == b[0] && Before(a[1..], b[1..]))
  }

  predicate StrictlySorted(names: seq<string>) { forall i, j | 0 <= i < j < |names| :: Before(names[i], names[j]) }

  lemma {:induction false} BeforeIsTotal(a: string, b: string)
    ensures a == b || Before(a, b) || Before(b, a)
  {
    if a != [] && b != [] && a[0] == b[0] {
      BeforeIsTotal(a[1..], b[1..]);
      assert a == [a[0]] + a[1..] && b == [b[0]] + b[1..];
    }
  }

  lemma {:induction false} BeforeIsTransitive(a: string, b: string, c: string)
    requires Before(a, b) && Before(b, c)
    ensures Before(a, c)
  {
    if a != [] && a[0] == b[0] == c[0] {
      BeforeIsTransitive(a[1..], b[1..], c[1..]);
    }
  }

  lemma {:induction false} BeforeIsStrict(a: string)
    ensures !Before(a, a)
  {
    if a != [] {
      BeforeIsStrict(a[1..]);
    }
  }

  /** Sorted in this sense, a list repeats nothing. */
  lemma {:induction false} SortedHasNoRepeats(names: seq<string>)
    requires StrictlySorted(names)
    ensures forall i, j | 0 <= i < j < |names| :: names[i] != names[j]
  {
    forall i, j | 0 <= i < j < |names| ensures names[i] != names[j] {
      BeforeIsStrict(names[i]);
    }
  }

  /** names with name at its place, once. */
  function Insert(name: string, names: seq<string>): (r: seq<string>)
    ensures forall x :: x in r <==> x == name || x in names
  {
    if names == [] then [name]
    else if name == names[0] then names
    else if Before(name, names[0]) then [name] + names
    else [names[0]] + Insert(name, names[1..])
  }

  lemma {:induction false} InsertKeepsSorted(name: string, names: seq<string>)
    requires StrictlySorted(names)
    ensures StrictlySorted(Insert(name, names))
  {
    if names == [] || name == names[0] {
    } else if Before(name, names[0]) {
      forall j | 0 < j < |names| ensures Before(name, names[j]) {
        BeforeIsTransitive(name, names[0], names[j]);
      }
    } else {
      InsertKeepsSorted(name, names[1..]);
      BeforeIsTotal(name, names[0]);
      var rest := Insert(name, names[1..]);
      forall j | 0 <= j < |rest| ensures Before(names[0], rest[j]) {
        assert rest[j] == name || rest[j] in names[1..];
      }
    }
  }

  /** slices.Sort followed by slices.Compact. */
  function SortCompact(names: seq<string>): (r: seq<string>)
    ensures forall x :: x in r <==> x in names
  {
    if names == [] then [] else Insert(names[0], SortCompact(names[1..]))
  }

  lemma {:induction false} SortCompactSorts(names: seq<string>)
    ensures StrictlySorted(SortCompact(names))
  {
    if names != [] {
      SortCompactSorts(names[1..]);
      InsertKeepsSorted(names[0], SortCompact(names[1..]));
    }
  }
}
