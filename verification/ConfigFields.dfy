/**
 Models the walk of types/runconfig_fields.go, which lists the dotted JSON path of every field of a
 type, over any graph of types. A recursive struct type is entered a bounded number of times.
 */
module ConfigFields {
  import opened SortedStrings

  const WILDCARD := "*"
  const NESTING := 2

  /** A type's number in the graph. */
  type TypeId = nat

  datatype Field = Field(tag: string, goName: string, anonymous: bool, exported: bool, typ: TypeId)

  /** What reflection shows of a type; Sequence is a slice or an array. */
  datatype Type =
    | Pointer(elem: TypeId)
    | Sequence(elem: TypeId)
    | Mapping(elem: TypeId)
    | Struct(fields: seq<Field>)
    | Leaf

  /** decoders are the types that decode themselves. */
  datatype Graph = Graph(types: seq<Type>, decoders: set<TypeId>)

  ghost predicate WellFormed(g: Graph) {
    forall t | 0 <= t < |g.types| ::
      match g.types[t]
      case Struct(fields) => forall i | 0 <= i < |fields| :: fields[i].typ < |g.types|
      case Leaf => true
      case _ => g.types[t].elem < |g.types|
  }

  // ---- Recursion passes through structs ----

  predicate Ends(ty: Type) { ty.Struct? || ty.Leaf? }

  /** n pointers, slices and maps lead from t to a struct or a leaf. */
  ghost predicate Far(g: Graph, t: TypeId, n: nat)
    requires WellFormed(g) && t < |g.types|
    decreases n
  {
    if n == 0 then Ends(g.types[t]) else !Ends(g.types[t]) && Far(g, g.types[t].elem, n - 1)
  }

  ghost predicate HasEnd(g: Graph, t: TypeId)
    requires WellFormed(g) && t < |g.types|
  {
    exists n: nat :: Far(g, t, n)
  }

  /** No type is built from itself by pointers, slices and maps alone, so its recursion passes through structs. */
  ghost predicate Grounded(g: Graph)
    requires WellFormed(g)
  {
    forall t | 0 <= t < |g.types| :: HasEnd(g, t)
  }

  ghost function Depth(g: Graph, t: TypeId): (n: nat)
    requires WellFormed(g) && Grounded(g) && t < |g.types|
    ensures Far(g, t, n)
  {
    assert HasEnd(g, t);
    var n: nat :| Far(g, t, n);
    n
  }

  lemma {:induction false} FarIsUnique(g: Graph, t: TypeId, m: nat, n: nat)
    requires WellFormed(g) && t < |g.types| && Far(g, t, m) && Far(g, t, n)
    ensures m == n
    decreases m
  {
    if m > 0 && n > 0 {
      FarIsUnique(g, g.types[t].elem, m - 1, n - 1);
    }
  }

  lemma {:induction false} DepthFalls(g: Graph, t: TypeId)
    requires WellFormed(g) && Grounded(g) && t < |g.types| && !Ends(g.types[t])
    ensures Depth(g, g.types[t].elem) < Depth(g, t)
  {
    FarIsUnique(g, g.types[t].elem, Depth(g, g.types[t].elem), Depth(g, t) - 1);
  }

  // ---- Names ----

  /** The part of a tag before its first comma. */
  function NameOf(tag: string): (name: string) {
    if tag == "" || tag[0] == ',' then "" else [tag[0]] + NameOf(tag[1..])
  }

  /** The name is the longest beginning of the tag without a comma. */
  lemma {:induction false} NameIsBeforeComma(tag: string)
    ensures var name := NameOf(tag);
            name <= tag && ',' !in name && (|name| < |tag| ==> tag[|name|] == ',')
  {
    if tag != "" && tag[0] != ',' {
      NameIsBeforeComma(tag[1..]);
    }
  }

  function Join(prefix: string, name: string): string { if prefix == "" then name else prefix + "." + name }

  /** How encoding/json treats a field: leaves it out, merges an embedded struct's fields, or gives it a name. */
  datatype Use = Skipped | Inlined(typ: TypeId) | Named(name: string)

  function Embedded(g: Graph, t: TypeId): (e: TypeId)
    requires WellFormed(g) && t < |g.types|
    ensures e < |g.types|
  {
    if g.types[t].Pointer? then g.types[t].elem else t
  }

  function UseOf(g: Graph, f: Field): (u: Use)
    requires WellFormed(g) && f.typ < |g.types|
    ensures u.Inlined? ==> u.typ < |g.types|
  {
    if f.tag == "-" then Skipped
    else if f.anonymous && NameOf(f.tag) == "" && g.types[Embedded(g, f.typ)].Struct? then Inlined(Embedded(g, f.typ))
    else if !f.exported then Skipped
    else Named(if NameOf(f.tag) == "" then f.goName else NameOf(f.tag))
  }

  // ---- The unfolding ----

  /** One step down the unfolding: through a pointer, slice or map, or into a field. */
  datatype Step = Down | Into(field: nat)

  /** The route, started at t under prefix, ends by naming path. No bound on nesting here. */
  ghost predicate Records(g: Graph, prefix: string, t: TypeId, route: seq<Step>, path: string)
    requires WellFormed(g) && t < |g.types|
    decreases |route|, 0
  {
    route != [] &&
    match g.types[t]
    case Pointer(e) => route[0] == Down && Records(g, prefix, e, route[1..], path)
    case Sequence(e) => t !in g.decoders && route[0] == Down && Records(g, prefix, e, route[1..], path)
    case Mapping(e) => t !in g.decoders && route[0] == Down
        && RecordsUnder(g, Join(prefix, WILDCARD), e, route[1..], path)
    case Struct(fields) =>
      && t !in g.decoders && route[0].Into? && route[0].field < |fields|
      && FieldRecords(g, prefix, fields[route[0].field], route[1..], path)
    case Leaf => false
  }

  /** A name is a path itself, and the prefix of the paths beneath it. */
  ghost predicate RecordsUnder(g: Graph, name: string, t: TypeId, route: seq<Step>, path: string)
    requires WellFormed(g) && t < |g.types|
    decreases |route|, 1
  {
    if route == [] then path == name else Records(g, name, t, route, path)
  }

  ghost predicate FieldRecords(g: Graph, prefix: string, f: Field, route: seq<Step>, path: string)
    requires WellFormed(g) && f.typ < |g.types|
    decreases |route|, 2
  {
    match UseOf(g, f)
    case Skipped => false
    case Inlined(e) => Records(g, prefix, e, route, path)
    case Named(name) => RecordsUnder(g, Join(prefix, name), f.typ, route, path)
  }

  /** How often the route enters struct type u. */
  ghost function Entered(g: Graph, t: TypeId, route: seq<Step>, u: TypeId): (n: nat)
    requires WellFormed(g) && t < |g.types|
    decreases |route|, 0
  {
    if route == [] then 0
    else
      match g.types[t]
      case Struct(fields) =>
        (if t == u then 1 else 0)
        + (if route[0].Into? && route[0].field < |fields|
           then FieldEntered(g, fields[route[0].field], route[1..], u)
           else 0)
      case Leaf => 0
      case _ => Entered(g, g.types[t].elem, route[1..], u)
  }

  ghost function FieldEntered(g: Graph, f: Field, route: seq<Step>, u: TypeId): (n: nat)
    requires WellFormed(g) && f.typ < |g.types|
    decreases |route|, 1
  {
    match UseOf(g, f)
    case Skipped => 0
    case Inlined(e) => Entered(g, e, route, u)
    case Named(_) => Entered(g, f.typ, route, u)
  }

  /** Entries so far and along the route stay within the nesting, for every struct type. */
  ghost predicate Within(g: Graph, active: seq<nat>, t: TypeId, route: seq<Step>)
    requires WellFormed(g) && t < |g.types| && |active| == |g.types|
  {
    forall u | 0 <= u < |active| :: active[u] + Entered(g, t, route, u) <= NESTING
  }

  ghost predicate FieldWithin(g: Graph, active: seq<nat>, f: Field, route: seq<Step>)
    requires WellFormed(g) && f.typ < |g.types| && |active| == |g.types|
  {
    forall u | 0 <= u < |active| :: active[u] + FieldEntered(g, f, route, u) <= NESTING
  }

  /** The paths the walk must find beneath prefix: those of the unfolding that stay within the nesting. */
  ghost predicate Found(g: Graph, active: seq<nat>, prefix: string, t: TypeId, path: string)
    requires WellFormed(g) && t < |g.types| && |active| == |g.types|
  {
    exists route :: Records(g, prefix, t, route, path) && Within(g, active, t, route)
  }

  ghost predicate FieldFound(g: Graph, active: seq<nat>, prefix: string, f: Field, path: string)
    requires WellFormed(g) && f.typ < |g.types| && |active| == |g.types|
  {
    exists route :: FieldRecords(g, prefix, f, route, path) && FieldWithin(g, active, f, route)
  }

  ghost predicate Bounded(active: seq<nat>) { forall u | 0 <= u < |active| :: active[u] <= NESTING }

  // ---- What each kind of type contributes ----

  lemma PointerFinds(g: Graph, active: seq<nat>, prefix: string, t: TypeId, path: string)
    requires WellFormed(g) && t < |g.types| && |active| == |g.types|
    requires g.types[t].Pointer? || (g.types[t].Sequence? && t !in g.decoders)
    ensures Found(g, active, prefix, t, path) <==> Found(g, active, prefix, g.types[t].elem, path)
  {
    var e := g.types[t].elem;
    if Found(g, active, prefix, t, path) {
      var route: seq<Step> :| Records(g, prefix, t, route, path) && Within(g, active, t, route);
      assert Records(g, prefix, e, route[1..], path);
      assert forall u | 0 <= u < |active| :: Entered(g, t, route, u) == Entered(g, e, route[1..], u);
      assert Within(g, active, e, route[1..]);
    }
    if Found(g, active, prefix, e, path) {
      var rest: seq<Step> :| Records(g, prefix, e, rest, path) && Within(g, active, e, rest);
      var route := [Down] + rest;
      assert route[1..] == rest;
      assert Records(g, prefix, t, route, path);
      assert forall u | 0 <= u < |active| :: Entered(g, t, route, u) == Entered(g, e, rest, u);
      assert Within(g, active, t, route);
    }
  }

  /** A type that decodes itself, or a leaf, contributes nothing. */
  lemma NothingFound(g: Graph, active: seq<nat>, prefix: string, t: TypeId, path: string)
    requires WellFormed(g) && t < |g.types| && |active| == |g.types|
    requires !g.types[t].Pointer? && (t in g.decoders || g.types[t].Leaf?)
    ensures !Found(g, active, prefix, t, path)
  {}

  lemma UnderFinds(g: Graph, active: seq<nat>, name: string, t: TypeId, path: string)
    requires WellFormed(g) && t < |g.types| && |active| == |g.types| && Bounded(active)
    ensures (exists route :: RecordsUnder(g, name, t, route, path) && Within(g, active, t, route)) <==>
            path == name || Found(g, active, name, t, path)
  {
    if path == name {
      assert RecordsUnder(g, name, t, [], path) && Within(g, active, t, []);
    }
    if Found(g, active, name, t, path) {
      var route: seq<Step> :| Records(g, name, t, route, path) && Within(g, active, t, route);
      assert RecordsUnder(g, name, t, route, path);
    }
  }

  lemma MappingFinds(g: Graph, active: seq<nat>, prefix: string, t: TypeId, path: string)
    requires WellFormed(g) && t < |g.types| && |active| == |g.types| && Bounded(active)
    requires g.types[t].Mapping? && t !in g.decoders
    ensures var name := Join(prefix, WILDCARD);
            Found(g, active, prefix, t, path) <==> path == name || Found(g, active, name, g.types[t].elem, path)
  {
    var e, name := g.types[t].elem, Join(prefix, WILDCARD);
    UnderFinds(g, active, name, e, path);
    if Found(g, active, prefix, t, path) {
      var route: seq<Step> :| Records(g, prefix, t, route, path) && Within(g, active, t, route);
      assert forall u | 0 <= u < |active| :: Entered(g, t, route, u) == Entered(g, e, route[1..], u);
      assert RecordsUnder(g, name, e, route[1..], path) && Within(g, active, e, route[1..]);
    }
    if rest: seq<Step> :| RecordsUnder(g, name, e, rest, path) && Within(g, active, e, rest) {
      var route := [Down] + rest;
      assert route[1..] == rest;
      assert Records(g, prefix, t, route, path);
      assert forall u | 0 <= u < |active| :: Entered(g, t, route, u) == Entered(g, e, rest, u);
      assert Within(g, active, t, route);
    }
  }

  ghost predicate UseFound(g: Graph, active: seq<nat>, prefix: string, f: Field, path: string)
    requires WellFormed(g) && f.typ < |g.types| && |active| == |g.types|
  {
    match UseOf(g, f)
    case Skipped => false
    case Inlined(e) => Found(g, active, prefix, e, path)
    case Named(name) => path == Join(prefix, name) || Found(g, active, Join(prefix, name), f.typ, path)
  }

  lemma FieldFinds(g: Graph, active: seq<nat>, prefix: string, f: Field, path: string)
    requires WellFormed(g) && f.typ < |g.types| && |active| == |g.types| && Bounded(active)
    ensures FieldFound(g, active, prefix, f, path) <==> UseFound(g, active, prefix, f, path)
  {
    match UseOf(g, f)
    case Skipped =>
    case Inlined(e) =>
      forall route ensures FieldRecords(g, prefix, f, route, path) == Records(g, prefix, e, route, path)
                        && FieldWithin(g, active, f, route) == Within(g, active, e, route) {}
    case Named(name) =>
      UnderFinds(g, active, Join(prefix, name), f.typ, path);
      forall route
          ensures FieldRecords(g, prefix, f, route, path) == RecordsUnder(g, Join(prefix, name), f.typ, route, path)
                        && FieldWithin(g, active, f, route) == Within(g, active, f.typ, route) {}
  }

  ghost predicate StructFound(g: Graph, active: seq<nat>, prefix: string, t: TypeId, path: string)
    requires WellFormed(g) && t < |g.types| && |active| == |g.types| && g.types[t].Struct?
  {
    var fields, entered := g.types[t].fields, active[t := active[t] + 1];
    active[t] < NESTING && exists i :: 0 <= i < |fields| && FieldFound(g, entered, prefix, fields[i], path)
  }

  /** A struct type contributes what its fields do with one more entry, if the nesting has room for it. */
  lemma StructFinds(g: Graph, active: seq<nat>, prefix: string, t: TypeId, path: string)
    requires WellFormed(g) && t < |g.types| && |active| == |g.types|
    requires g.types[t].Struct? && t !in g.decoders
    ensures Found(g, active, prefix, t, path) <==> StructFound(g, active, prefix, t, path)
  {
    var fields, entered := g.types[t].fields, active[t := active[t] + 1];
    if Found(g, active, prefix, t, path) {
      var route: seq<Step> :| Records(g, prefix, t, route, path) && Within(g, active, t, route);
      var i := route[0].field;
      StructWithin(g, active, t, route);
      assert FieldRecords(g, prefix, fields[i], route[1..], path);
      assert FieldFound(g, entered, prefix, fields[i], path);
    }
    if i :| active[t] < NESTING && 0 <= i < |fields| && FieldFound(g, entered, prefix, fields[i], path) {
      var rest: seq<Step> :| FieldRecords(g, prefix, fields[i], rest, path) && FieldWithin(g, entered, fields[i], rest);
      var route := [Into(i)] + rest;
      assert route[1..] == rest;
      StructWithin(g, active, t, route);
      assert Records(g, prefix, t, route, path);
    }
  }

  lemma StructWithin(g: Graph, active: seq<nat>, t: TypeId, route: seq<Step>)
    requires WellFormed(g) && t < |g.types| && |active| == |g.types| && g.types[t].Struct?
    requires route != [] && route[0].Into? && route[0].field < |g.types[t].fields|
    ensures Within(g, active, t, route) <==>
            FieldWithin(g, active[t := active[t] + 1], g.types[t].fields[route[0].field], route[1..])
    ensures Within(g, active, t, route) ==> active[t] < NESTING
  {
    var f, entered := g.types[t].fields[route[0].field], active[t := active[t] + 1];
    assert forall u | 0 <= u < |active| ::
        active[u] + Entered(g, t, route, u) == entered[u] + FieldEntered(g, f, route[1..], u);
  }

  // ---- What the characterisation gives ----

  /**
   The naming rules of encoding/json, as what is found: nothing for a field tagged "-" or an
   unexported one that is not embedded; for an exported one that is not embedded its tag's name, or
   its Go name where the tag has none; for an embedded struct without a name, exported or not, what
   the struct gives.
   */
  lemma FieldRules(g: Graph, active: seq<nat>, prefix: string, f: Field)
    requires WellFormed(g) && f.typ < |g.types| && |active| == |g.types| && Bounded(active)
    ensures f.tag == "-" || (!f.exported && !f.anonymous) ==> forall p :: !FieldFound(g, active, prefix, f, p)
    ensures f.tag != "-" && f.exported && (!f.anonymous || NameOf(f.tag) != "") ==>
              FieldFound(g, active, prefix, f, Join(prefix, if NameOf(f.tag) != "" then NameOf(f.tag) else f.goName))
    ensures f.tag != "-" && !f.exported && NameOf(f.tag) != "" ==> forall p :: !FieldFound(g, active, prefix, f, p)
    ensures f.tag != "-" && f.anonymous && NameOf(f.tag) == "" ==>
              var e := if g.types[f.typ].Pointer? then g.types[f.typ].elem else f.typ;
              && (g.types[e].Struct? ==>
                    forall p :: FieldFound(g, active, prefix, f, p) <==> Found(g, active, prefix, e, p))
              && (!g.types[e].Struct? ==>
                    (f.exported <==> FieldFound(g, active, prefix, f, Join(prefix, f.goName))))
  {
    hide FieldFound, Found;
    forall p ensures FieldFound(g, active, prefix, f, p) <==> UseFound(g, active, prefix, f, p) {
      FieldFinds(g, active, prefix, f, p);
    }
  }

  lemma {:induction false} EnteredOfPrefix(g: Graph, t: TypeId, route: seq<Step>, k: nat, u: TypeId)
    requires WellFormed(g) && t < |g.types| && k <= |route|
    ensures Entered(g, t, route[..k], u) <= Entered(g, t, route, u)
    decreases |route|
  {
    if k > 0 {
      var front := route[..k];
      assert front[1..] == route[1..][..k - 1] && front[0] == route[0];
      match g.types[t]
      case Struct(fields) =>
        if route[0].Into? && route[0].field < |fields| {
          var f := fields[route[0].field];
          match UseOf(g, f)
          case Skipped =>
          case Inlined(e) => EnteredOfPrefix(g, e, route[1..], k - 1, u);
          case Named(_) => EnteredOfPrefix(g, f.typ, route[1..], k - 1, u);
        }
      case Leaf =>
      case _ => EnteredOfPrefix(g, g.types[t].elem, route[1..], k - 1, u);
    }
  }

  /** A listed path's parents are listed: every name given on the way to it. */
  lemma {:induction false} ParentsAreListed(g: Graph, active: seq<nat>, prefix: string, t: TypeId, route: seq<Step>,
      k: nat, parent: string)
    requires WellFormed(g) && t < |g.types| && |active| == |g.types| && k <= |route|
    requires Within(g, active, t, route) && Records(g, prefix, t, route[..k], parent)
    ensures Found(g, active, prefix, t, parent)
  {
    forall u | 0 <= u < |active| ensures active[u] + Entered(g, t, route[..k], u) <= NESTING {
      EnteredOfPrefix(g, t, route, k, u);
    }
    assert Within(g, active, t, route[..k]);
  }

  /** Field i of struct t has a name and holds t again, behind a pointer or a slice. */
  ghost predicate ContainsItself(g: Graph, t: TypeId, i: nat)
    requires WellFormed(g) && t < |g.types|
  {
    && g.types[t].Struct? && t !in g.decoders && i < |g.types[t].fields|
    && var f := g.types[t].fields[i];
       UseOf(g, f).Named? && (g.types[f.typ] == Pointer(t) || (g.types[f.typ] == Sequence(t) && f.typ !in g.decoders))
  }

  /**
   A type that contains itself is walked one level inside itself: its own field is listed at the
   first and at the second level, and no route goes on beneath the second.
   */
  lemma {:induction false} SelfContainingType(g: Graph, active: seq<nat>, prefix: string, t: TypeId, i: nat)
    requires WellFormed(g) && t < |g.types| && |active| == |g.types| && Bounded(active)
    requires ContainsItself(g, t, i) && active[t] == 0
    ensures var name := UseOf(g, g.types[t].fields[i]).name;
            Found(g, active, prefix, t, Join(prefix, name))
            && Found(g, active, prefix, t, Join(Join(prefix, name), name))
    ensures forall rest :: rest != [] ==> !Within(g, active, t, [Into(i), Down, Into(i), Down] + rest)
  {
    var f := g.types[t].fields[i];
    var name, e := UseOf(g, f).name, f.typ;
    var once, twice := active[t := 1], active[t := 2];
    assert once[t := 2] == twice && Bounded(once) && Bounded(twice);
    FieldListed(g, active, prefix, t, i, Join(prefix, name));
    FieldListed(g, once, Join(prefix, name), t, i, Join(Join(prefix, name), name));
    PointerFinds(g, once, Join(prefix, name), e, Join(Join(prefix, name), name));
    FieldListed(g, active, prefix, t, i, Join(Join(prefix, name), name));
    forall rest | rest != [] ensures !Within(g, active, t, [Into(i), Down, Into(i), Down] + rest) {
      ThirdEntry(g, t, i, rest);
    }
  }

  lemma {:induction false} FieldListed(g: Graph, active: seq<nat>, prefix: string, t: TypeId, i: nat, path: string)
    requires WellFormed(g) && t < |g.types| && |active| == |g.types| && Bounded(active)
    requires ContainsItself(g, t, i) && active[t] < NESTING
    requires var f, entered := g.types[t].fields[i], active[t := active[t] + 1];
             path == Join(prefix, UseOf(g, f).name) || Found(g, entered, Join(prefix, UseOf(g, f).name), f.typ, path)
    ensures Found(g, active, prefix, t, path)
  {
    hide Found;
    FieldFinds(g, active[t := active[t] + 1], prefix, g.types[t].fields[i], path);
    StructFinds(g, active, prefix, t, path);
  }

  lemma {:induction false} ThirdEntry(g: Graph, t: TypeId, i: nat, rest: seq<Step>)
    requires WellFormed(g) && t < |g.types| && ContainsItself(g, t, i) && rest != []
    ensures Entered(g, t, [Into(i), Down, Into(i), Down] + rest, t) >= 3
  {
    var r4 := [Into(i), Down, Into(i), Down] + rest;
    OneRound(g, t, i, r4);
    assert r4[2..] == [Into(i), Down] + rest;
    OneRound(g, t, i, r4[2..]);
    assert r4[2..][2..] == rest;
  }

  lemma {:induction false} OneRound(g: Graph, t: TypeId, i: nat, route: seq<Step>)
    requires WellFormed(g) && t < |g.types| && ContainsItself(g, t, i)
    requires |route| >= 2 && route[0] == Into(i) && route[1] == Down
    ensures Entered(g, t, route, t) == 1 + Entered(g, t, route[2..], t)
  {
    var f := g.types[t].fields[i];
    assert Entered(g, t, route, t) == 1 + Entered(g, f.typ, route[1..], t);
    assert route[1..][1..] == route[2..];
  }

  // ---- Room left for entries ----

  /** How many more struct entries the nesting allows in all: what falls when a struct is entered. */
  ghost function Room(active: seq<nat>): (n: nat) {
    if active == [] then 0
    else Room(active[..|active| - 1]) + (if active[|active| - 1] < NESTING then NESTING - active[|active| - 1] else 0)
  }

  lemma {:induction false} RoomFalls(active: seq<nat>, t: TypeId)
    requires t < |active| && active[t] < NESTING
    ensures Room(active[t := active[t] + 1]) == Room(active) - 1
    decreases |active|
  {
    var n, entered := |active| - 1, active[t := active[t] + 1];
    if t == n {
      assert entered[..n] == active[..n];
    } else {
      RoomFalls(active[..n], t);
      assert entered[..n] == active[..n][t := active[t] + 1];
    }
  }

  // ---- The walk ----

  function Zeros(n: nat): (s: seq<nat>)
    ensures |s| == n && forall i | 0 <= i < n :: s[i] == 0
  {
    seq(n, _ => 0)
  }

  /** The maps the walk threads: the paths seen, and how often each struct type is on the current descent. */
  class Walker {
    const g: Graph
    var seen: set<string>
    var active: seq<nat>

    ghost predicate Valid()
      reads this
    {
      WellFormed(g) && Grounded(g) && |active| == |g.types| && Bounded(active)
    }

    constructor (g: Graph)
      requires WellFormed(g) && Grounded(g)
      ensures Valid() && this.g == g && seen == {} && active == Zeros(|g.types|)
    {
      this.g := g;
      seen := {};
      active := Zeros(|g.types|);
    }

    /** collectConfigFieldPaths: adds exactly the paths beneath prefix, and leaves active as it was. */
    method Collect(prefix: string, typ: TypeId)
      requires Valid() && typ < |g.types|
      modifies this
      ensures Valid() && active == old(active)
      ensures forall p :: p in seen <==> p in old(seen) || Found(g, active, prefix, typ, p)
      decreases 2 * Room(active), 1 + Depth(g, typ)
    {
      hide Found, FieldFound;
      var t := Deref(prefix, typ);
      if t in g.decoders {
        forall p ensures !Found(g, active, prefix, t, p) { NothingFound(g, active, prefix, t, p); }
        return;
      }
      match g.types[t] {
        case Sequence(e) =>
          DepthFalls(g, t);
          Collect(prefix, e);
          forall p ensures Found(g, active, prefix, t, p) == Found(g, active, prefix, e, p) {
            PointerFinds(g, active, prefix, t, p);
          }
        case Mapping(e) =>
          DepthFalls(g, t);
          var path := Join(prefix, WILDCARD);
          seen := seen + {path};
          Collect(path, e);
          forall p ensures Found(g, active, prefix, t, p) == (p == path || Found(g, active, path, e, p)) {
            MappingFinds(g, active, prefix, t, p);
          }
        case Struct(fields) =>
          CollectStruct(prefix, t);
        case Leaf =>
          forall p ensures !Found(g, active, prefix, t, p) { NothingFound(g, active, prefix, t, p); }
      }
    }

    /** The loop that follows pointers. */
    method Deref(prefix: string, typ: TypeId) returns (t: TypeId)
      requires Valid() && typ < |g.types|
      ensures t < |g.types| && !g.types[t].Pointer? && Depth(g, t) <= Depth(g, typ)
      ensures forall p :: Found(g, active, prefix, t, p) == Found(g, active, prefix, typ, p)
    {
      hide Found;
      t := typ;
      while g.types[t].Pointer?
        invariant t < |g.types| && Depth(g, t) <= Depth(g, typ)
        invariant forall p :: Found(g, active, prefix, t, p) == Found(g, active, prefix, typ, p)
        decreases Depth(g, t)
      {
        var e := g.types[t].elem;
        DepthFalls(g, t);
        forall p ensures Found(g, active, prefix, t, p) == Found(g, active, prefix, e, p) {
          PointerFinds(g, active, prefix, t, p);
        }
        t := e;
      }
    }

    /** The struct case: one entry more while its fields are walked. */
    method CollectStruct(prefix: string, t: TypeId)
      requires Valid() && t < |g.types| && g.types[t].Struct? && t !in g.decoders
      modifies this
      ensures Valid() && active == old(active)
      ensures forall p :: p in seen <==> p in old(seen) || Found(g, active, prefix, t, p)
      decreases 2 * Room(active), 0
    {
      hide Found, FieldFound;
      forall p ensures Found(g, active, prefix, t, p) == StructFound(g, active, prefix, t, p) {
        StructFinds(g, active, prefix, t, p);
      }
      if active[t] >= NESTING {
        return;
      }
      var fields := g.types[t].fields;
      RoomFalls(active, t);
      ghost var entered := active[t := active[t] + 1];
      active := active[t := active[t] + 1];
      for i := 0 to |fields|
        invariant Valid() && active == entered
        invariant forall p :: p in seen <==>
                    p in old(seen) || exists j :: 0 <= j < i && FieldFound(g, entered, prefix, fields[j], p)
      {
        CollectField(prefix, fields[i]);
      }
      active := active[t := active[t] - 1];
      assert active == old(active);
    }

    /** collectStructField. */
    method CollectField(prefix: string, f: Field)
      requires Valid() && f.typ < |g.types|
      modifies this
      ensures Valid() && active == old(active)
      ensures forall p :: p in seen <==> p in old(seen) || FieldFound(g, active, prefix, f, p)
      decreases 2 * Room(active) + 1, 0
    {
      hide Found, FieldFound;
      forall p ensures FieldFound(g, active, prefix, f, p) == UseFound(g, active, prefix, f, p) {
        FieldFinds(g, active, prefix, f, p);
      }
      if f.tag == "-" {
        return;
      }
      var name := NameOf(f.tag);
      if f.anonymous && name == "" {
        var embedded := f.typ;
        if g.types[embedded].Pointer? {
          embedded := g.types[embedded].elem;
        }
        if g.types[embedded].Struct? {
          Collect(prefix, embedded);
          return;
        }
      }
      if !f.exported {
        return;
      }
      if name == "" {
        name := f.goName;
      }
      var path := Join(prefix, name);
      seen := seen + {path};
      Collect(path, f.typ);
    }
  }

  /** configFieldPaths: the paths of the unfolding within the nesting, sorted and once each. */
  method ConfigFieldPaths(g: Graph, root: TypeId) returns (paths: seq<string>)
    requires WellFormed(g) && Grounded(g) && root < |g.types|
    ensures StrictlySorted(paths)
    ensures forall p :: p in paths <==> Found(g, Zeros(|g.types|), "", root, p)
  {
    hide Found;
    var w := new Walker(g);
    w.Collect("", root);
    paths := [];
    var seen, rest := w.seen, w.seen;
    while rest != {}
      invariant StrictlySorted(paths) && rest <= seen
      invariant forall p :: p in paths <==> p in seen && p !in rest
      decreases rest
    {
      var p :| p in rest;
      InsertKeepsSorted(p, paths);
      paths := Insert(p, paths);
      rest := rest - {p};
    }
  }
}
