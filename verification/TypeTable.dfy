/**
 Interned types: numbers that stand for types, with one table for each kind of compound type.

 What a number means is a tree. The tables only hold numbers, so the meaning of every number
 in use is kept beside them as a ghost; that each entry's meaning is built from its components'
 meanings is what makes walks over the tables terminate.
 */
module TypeTable {

  datatype Ty =
    | Plain(id: nat)
    | Param(index: nat)
    | Pointer(target: Ty, isConst: bool)
    | Array(element: Ty, length: nat)
    | Slice(element: Ty, isConst: bool)
    | Fn(params: seq<Ty>, result: Ty, variadic: bool)

  const ErrorType: nat := 1
  const PointerBase: nat := 65536
  const ArrayBase: nat := 131072
  const SliceBase: nat := 196608
  const FnBase: nat := 262144
  const DistinctBase: nat := 327680
  const ParamBase: nat := 393216
  const MaxTypeParams: nat := 8
  const MaxFnParams: nat := 64

  datatype PointerEntry = PointerEntry(target: nat, isConst: bool)
  datatype ArrayEntry = ArrayEntry(element: nat, length: nat)
  datatype SliceEntry = SliceEntry(element: nat, isConst: bool)
  datatype FnEntry = FnEntry(result: nat, start: nat, count: nat, variadic: bool)

  datatype Tables = Tables(
    pointers: seq<PointerEntry>,
    arrays: seq<ArrayEntry>,
    slices: seq<SliceEntry>,
    fns: seq<FnEntry>,
    params: seq<nat>)

  predicate IsParam(id: nat) {
    ParamBase <= id < ParamBase + MaxTypeParams
  }

  predicate Compound(id: nat) {
    PointerBase <= id < DistinctBase
  }

  /** The entry of a compound type, in terms of its components' numbers. */
  datatype Shape =
    | PointerTo(target: nat, isConst: bool)
    | ArrayOf(element: nat, length: nat)
    | SliceOf(element: nat, isConst: bool)
    | FnOf(params: seq<nat>, result: nat, variadic: bool)

  predicate Fits(t: Tables) {
    && |t.pointers| <= ArrayBase - PointerBase && |t.arrays| <= SliceBase - ArrayBase
    && |t.slices| <= FnBase - SliceBase && |t.fns| <= DistinctBase - FnBase
    && forall i :: 0 <= i < |t.fns| ==> t.fns[i].start + t.fns[i].count <= |t.params|
  }

  predicate Present(t: Tables, id: nat) {
    if id < PointerBase then false
    else if id < ArrayBase then id - PointerBase < |t.pointers|
    else if id < SliceBase then id - ArrayBase < |t.arrays|
    else if id < FnBase then id - SliceBase < |t.slices|
    else id < DistinctBase && id - FnBase < |t.fns|
  }

  /** Numbers a caller may use: those of plain types and parameters, and those handed out. */
  predicate Known(t: Tables, id: nat) {
    Compound(id) ==> Present(t, id)
  }

  function ShapeOf(t: Tables, id: nat): Shape
    requires Fits(t) && Present(t, id)
  {
    if id < ArrayBase then var e := t.pointers[id - PointerBase]; PointerTo(e.target, e.isConst)
    else if id < SliceBase then var e := t.arrays[id - ArrayBase]; ArrayOf(e.element, e.length)
    else if id < FnBase then var e := t.slices[id - SliceBase]; SliceOf(e.element, e.isConst)
    else FnShape(t, t.fns[id - FnBase])
  }

  function FnShape(t: Tables, e: FnEntry): Shape
    requires e.start + e.count <= |t.params|
  {
    FnOf(t.params[e.start..e.start + e.count], e.result, e.variadic)
  }

  predicate Uses(s: Shape, id: nat) {
    match s
    case PointerTo(target, _) => id == target
    case ArrayOf(element, _) => id == element
    case SliceOf(element, _) => id == element
    case FnOf(params, result, _) => id == result || id in params
  }

  // ----- meaning -----

  function Meaning(m: map<nat, Ty>, id: nat): Ty {
    if Compound(id) then (if id in m then m[id] else Plain(id))
    else if IsParam(id) then Param(id - ParamBase)
    else Plain(id)
  }

  function Meanings(m: map<nat, Ty>, ids: seq<nat>): (r: seq<Ty>)
    ensures |r| == |ids| && forall i :: 0 <= i < |ids| ==> r[i] == Meaning(m, ids[i])
  {
    seq(|ids|, i requires 0 <= i < |ids| => Meaning(m, ids[i]))
  }

  function Built(m: map<nat, Ty>, s: Shape): Ty {
    match s
    case PointerTo(target, c) => Pointer(Meaning(m, target), c)
    case ArrayOf(element, n) => Array(Meaning(m, element), n)
    case SliceOf(element, c) => Slice(Meaning(m, element), c)
    case FnOf(params, result, v) => Fn(Meanings(m, params), Meaning(m, result), v)
  }

  /** Each entry means what its components make it, and no entry occurs twice. */
  ghost predicate Sound(t: Tables, m: map<nat, Ty>) {
    && Fits(t)
    && (forall id :: id in m <==> Present(t, id))
    && (forall id :: Present(t, id) ==> m[id] == Built(m, ShapeOf(t, id)))
    && (forall id, part :: Present(t, id) && Uses(ShapeOf(t, id), part) ==> Known(t, part))
    && (forall a, b :: Present(t, a) && Present(t, b) && ShapeOf(t, a) == ShapeOf(t, b) ==> a == b)
  }

  /** Numbers in use stand for the same type exactly if they are equal. */
  lemma {:induction false} Injective(t: Tables, m: map<nat, Ty>, a: nat, b: nat)
    requires Sound(t, m) && Known(t, a) && Known(t, b)
    ensures Meaning(m, a) == Meaning(m, b) <==> a == b
    decreases Meaning(m, a)
  {
    if Meaning(m, a) == Meaning(m, b) && Compound(a) && Compound(b) {
      var s, s' := ShapeOf(t, a), ShapeOf(t, b);
      assert Uses(s, if s.PointerTo? then s.target else if s.FnOf? then s.result else s.element);
      assert Uses(s', if s'.PointerTo? then s'.target else if s'.FnOf? then s'.result else s'.element);
      match s
      case PointerTo(target, _) => Injective(t, m, target, s'.target);
      case ArrayOf(element, _) => Injective(t, m, element, s'.element);
      case SliceOf(element, _) => Injective(t, m, element, s'.element);
      case FnOf(params, result, _) =>
        Injective(t, m, result, s'.result);
        forall i | 0 <= i < |params|
          ensures params[i] == s'.params[i]
        {
          assert Meanings(m, params)[i] == Meanings(m, s'.params)[i];
          assert Uses(s, params[i]) && Uses(s', s'.params[i]);
          Injective(t, m, params[i], s'.params[i]);
        }
        assert params == s'.params;
    }
  }

  /** `t'` is `t` with the compound type `id` added. */
  ghost predicate Extends(t: Tables, t': Tables, id: nat, s: Shape) {
    && Fits(t) && Fits(t') && Compound(id) && !Present(t, id)
    && (forall k :: Present(t', k) <==> Present(t, k) || k == id)
    && (forall k :: Present(t, k) ==> ShapeOf(t', k) == ShapeOf(t, k))
    && ShapeOf(t', id) == s
  }

  ghost predicate Lacks(t: Tables, s: Shape) {
    Fits(t) && forall k :: Present(t, k) ==> ShapeOf(t, k) != s
  }

  /** Adding an entry that is not there keeps the tables sound, and every earlier meaning. */
  lemma Added(t: Tables, t': Tables, m: map<nat, Ty>, id: nat, s: Shape)
    requires Sound(t, m) && Extends(t, t', id, s)
    requires forall part :: Uses(s, part) ==> Known(t, part)
    requires Lacks(t, s)
    ensures Sound(t', m[id := Built(m, s)])
    ensures forall k :: k in m ==> k != id
    ensures Known(t', id) && Meaning(m[id := Built(m, s)], id) == Built(m, s)
  {
    var m' := m[id := Built(m, s)];
    forall k | Present(t', k)
      ensures m'[k] == Built(m', ShapeOf(t', k))
    {
      assert k != id ==> Present(t, k);
      SameBuilt(t, m, id, Built(m, s), ShapeOf(t', k));
    }
    forall k, part | Present(t', k) && Uses(ShapeOf(t', k), part)
      ensures Known(t', part)
    {
      assert k != id ==> Present(t, k);
      assert Known(t, part);
    }
    forall a, b | Present(t', a) && Present(t', b) && ShapeOf(t', a) == ShapeOf(t', b)
      ensures a == b
    {
      assert (a != id ==> Present(t, a)) && (b != id ==> Present(t, b));
    }
  }

  lemma SameBuilt(t: Tables, m: map<nat, Ty>, id: nat, ty: Ty, s: Shape)
    requires Compound(id) && !Present(t, id) && forall part :: Uses(s, part) ==> Known(t, part)
    ensures Built(m[id := ty], s) == Built(m, s)
  {
    if s.FnOf? {
      forall i | 0 <= i < |s.params|
        ensures Meaning(m[id := ty], s.params[i]) == Meaning(m, s.params[i])
      {
        assert Uses(s, s.params[i]);
      }
      assert Uses(s, s.result);
      assert Meanings(m[id := ty], s.params) == Meanings(m, s.params);
    } else {
      assert Uses(s, if s.PointerTo? then s.target else s.element);
    }
  }

  // ----- substitution -----

  /** Putting types in for parameters. */
  function Subst(ty: Ty, args: seq<Ty>): Ty {
    match ty
    case Plain(_) => ty
    case Param(i) => if i < |args| then args[i] else ty
    case Pointer(target, c) => Pointer(Subst(target, args), c)
    case Array(element, n) => Array(Subst(element, args), n)
    case Slice(element, c) => Slice(Subst(element, args), c)
    case Fn(params, result, v) =>
      Fn(seq(|params|, i requires 0 <= i < |params| => Subst(params[i], args)), Subst(result, args), v)
  }

  /** Function types that substitution does not enter. */
  predicate Opaque(ty: Ty) {
    ty.Fn? && (|ty.params| > MaxFnParams || ty.variadic)
  }

  /** What substitution over the tables computes. */
  function Limited(ty: Ty, args: seq<Ty>): Ty {
    match ty
    case Plain(_) => ty
    case Param(i) => if i < |args| then args[i] else ty
    case Pointer(target, c) => Pointer(Limited(target, args), c)
    case Array(element, n) => Array(Limited(element, args), n)
    case Slice(element, c) => Slice(Limited(element, args), c)
    case Fn(params, result, v) =>
      if Opaque(ty) then ty
      else Fn(seq(|params|, i requires 0 <= i < |params| => Limited(params[i], args)), Limited(result, args), v)
  }

  /** All parameters of a type are among the first `n`. */
  predicate Within(ty: Ty, n: nat) {
    match ty
    case Plain(_) => true
    case Param(i) => i < n
    case Pointer(target, _) => Within(target, n)
    case Array(element, _) => Within(element, n)
    case Slice(element, _) => Within(element, n)
    case Fn(params, result, _) => Within(result, n) && forall i :: 0 <= i < |params| ==> Within(params[i], n)
  }

  /** The type has a parameter that the arguments replace by something else. */
  predicate Affected(ty: Ty, args: seq<Ty>) {
    match ty
    case Plain(_) => false
    case Param(i) => i < |args| && args[i] != ty
    case Pointer(target, _) => Affected(target, args)
    case Array(element, _) => Affected(element, args)
    case Slice(element, _) => Affected(element, args)
    case Fn(params, result, _) => Affected(result, args) || exists i :: 0 <= i < |params| && Affected(params[i], args)
  }

  /** Some function type that substitution does not enter is affected by it. */
  predicate Missed(ty: Ty, args: seq<Ty>) {
    match ty
    case Plain(_) => false
    case Param(_) => false
    case Pointer(target, _) => Missed(target, args)
    case Array(element, _) => Missed(element, args)
    case Slice(element, _) => Missed(element, args)
    case Fn(params, result, _) =>
      if Opaque(ty) then Affected(ty, args)
      else Missed(result, args) || exists i :: 0 <= i < |params| && Missed(params[i], args)
  }

  lemma {:induction false} AffectedChanges(ty: Ty, args: seq<Ty>)
    ensures Subst(ty, args) == ty <==> !Affected(ty, args)
  {
    match ty
    case Plain(_) =>
    case Param(_) =>
    case Pointer(target, _) => AffectedChanges(target, args);
    case Array(element, _) => AffectedChanges(element, args);
    case Slice(element, _) => AffectedChanges(element, args);
    case Fn(params, result, _) =>
      AffectedChanges(result, args);
      forall i | 0 <= i < |params|
        ensures Subst(params[i], args) == params[i] <==> !Affected(params[i], args)
      {
        AffectedChanges(params[i], args);
      }
      var all := Subst(ty, args).params;
      assert all == params <==> forall i :: 0 <= i < |params| ==> all[i] == params[i];
  }

  /**
   The computed substitution is the structural one exactly if it misses no function type; with
   at most 64 parameters and no variadic arguments anywhere, it misses none.
   */
  lemma {:induction false} LimitedIsSubst(ty: Ty, args: seq<Ty>)
    ensures Limited(ty, args) == Subst(ty, args) <==> !Missed(ty, args)
  {
    match ty
    case Plain(_) =>
    case Param(_) =>
    case Pointer(target, _) => LimitedIsSubst(target, args);
    case Array(element, _) => LimitedIsSubst(element, args);
    case Slice(element, _) => LimitedIsSubst(element, args);
    case Fn(params, result, _) =>
      if Opaque(ty) {
        AffectedChanges(ty, args);
      } else {
        LimitedIsSubst(result, args);
        forall i | 0 <= i < |params|
          ensures Limited(params[i], args) == Subst(params[i], args) <==> !Missed(params[i], args)
        {
          LimitedIsSubst(params[i], args);
        }
        var a, b := Limited(ty, args).params, Subst(ty, args).params;
        forall i | 0 <= i < |params|
          ensures a[i] == b[i] <==> !Missed(params[i], args)
        {
          assert a[i] == Limited(params[i], args) && b[i] == Subst(params[i], args);
        }
        assert a == b <==> forall i :: 0 <= i < |params| ==> a[i] == b[i];
        assert Limited(ty, args) == Subst(ty, args) <==> a == b && Limited(result, args) == Subst(result, args);
      }
  }

  predicate Small(ty: Ty) {
    match ty
    case Plain(_) => true
    case Param(_) => true
    case Pointer(target, _) => Small(target)
    case Array(element, _) => Small(element)
    case Slice(element, _) => Small(element)
    case Fn(params, result, _) => !Opaque(ty) && Small(result) && forall i :: 0 <= i < |params| ==> Small(params[i])
  }

  lemma {:induction false} SmallNotMissed(ty: Ty, args: seq<Ty>)
    requires Small(ty)
    ensures !Missed(ty, args)
  {
    match ty
    case Plain(_) =>
    case Param(_) =>
    case Pointer(target, _) => SmallNotMissed(target, args);
    case Array(element, _) => SmallNotMissed(element, args);
    case Slice(element, _) => SmallNotMissed(element, args);
    case Fn(params, result, _) =>
      SmallNotMissed(result, args);
      forall i | 0 <= i < |params|
        ensures !Missed(params[i], args)
      {
        SmallNotMissed(params[i], args);
      }
  }

  lemma LimitedStep(ty: Ty, args: seq<Ty>)
    ensures ty.Plain? ==> Limited(ty, args) == ty
    ensures ty.Param? && ty.index < |args| ==> Limited(ty, args) == args[ty.index]
    ensures ty.Pointer? ==> Limited(ty, args) == Pointer(Limited(ty.target, args), ty.isConst)
    ensures ty.Array? ==> Limited(ty, args) == Array(Limited(ty.element, args), ty.length)
    ensures ty.Slice? ==> Limited(ty, args) == Slice(Limited(ty.element, args), ty.isConst)
    ensures Opaque(ty) ==> Limited(ty, args) == ty
  {
  }

  /** The numbers stand for the parameters of a function type after substitution. */
  ghost predicate Replaced(m: map<nat, Ty>, ids: seq<nat>, ty: Ty, args: seq<Ty>) {
    ty.Fn? && |ids| == |ty.params| && forall k :: 0 <= k < |ids| ==> Meaning(m, ids[k]) == Limited(ty.params[k], args)
  }

  lemma Assembled(m: map<nat, Ty>, ids: seq<nat>, ty: Ty, args: seq<Ty>)
    requires Replaced(m, ids, ty, args) && !Opaque(ty)
    ensures Limited(ty, args) == Fn(Meanings(m, ids), Limited(ty.result, args), false)
  {
    assert Limited(ty, args).params == Meanings(m, ids);
  }

  lemma Unchanged(t: Tables, m: map<nat, Ty>, t': Tables, m': map<nat, Ty>, ids: seq<nat>, ty: Ty, args: seq<Ty>)
    requires Sound(t, m) && Grown(t, m, t', m') && Replaced(m', ids, ty, args) && !Opaque(ty)
    requires ty.params == Meanings(m, ids) && Limited(ty.result, args) == ty.result
    requires forall i :: 0 <= i < |ids| ==> Known(t, ids[i])
    ensures Limited(ty, args) == ty
  {
    forall i | 0 <= i < |ids|
      ensures Limited(ty, args).params[i] == ty.params[i]
    {
      GrownKeeps(t, m, t', m', ids[i]);
    }
    assert Limited(ty, args).params == ty.params;
  }

  // ----- the tables -----

  class Interner {
    var pointers: seq<PointerEntry>
    var arrays: seq<ArrayEntry>
    var slices: seq<SliceEntry>
    var fns: seq<FnEntry>
    var params: seq<nat>
    var exceeded: bool
    /** What the numbers handed out so far stand for. */
    ghost var means: map<nat, Ty>

    ghost function Here(): Tables
      reads this
    {
      Tables(pointers, arrays, slices, fns, params)
    }

    ghost predicate Valid()
      reads this
    {
      Sound(Here(), means)
    }

    constructor ()
      ensures Valid() && means == map[] && !exceeded
    {
      pointers, arrays, slices, fns, params, exceeded, means := [], [], [], [], [], false, map[];
    }

    /** The number of a pointer type: that of an equal entry, or a new one. */
    method InternPointer(target: nat, isConst: bool) returns (id: nat)
      requires Valid() && Known(Here(), target)
      modifies this
      ensures Valid() && Grown(old(Here()), old(means), Here(), means)
      ensures Interned(Here(), means, old(exceeded), exceeded, id, Pointer(Meaning(old(means), target), isConst),
                       |pointers| == ArrayBase - PointerBase)
    {
      hide Sound, Extends;
      SoundFits(Here(), means);
      var i := 0;
      while i < |pointers|
        invariant i <= |pointers|
        invariant forall k :: 0 <= k < i ==> pointers[k] != PointerEntry(target, isConst)
      {
        if pointers[i] == PointerEntry(target, isConst) {
          Found(Here(), means, PointerBase + i, PointerTo(target, isConst));
          return PointerBase + i;
        }
        i := i + 1;
      }
      if |pointers| >= ArrayBase - PointerBase {
        exceeded := true;
        return ErrorType;
      }
      id := PointerBase + |pointers|;
      ghost var t, s := Here(), PointerTo(target, isConst);
      NoPointer(t, target, isConst);
      NewPointer(t, PointerEntry(target, isConst));
      Added(t, t.(pointers := pointers + [PointerEntry(target, isConst)]), means, id, s);
      pointers := pointers + [PointerEntry(target, isConst)];
      means := means[id := Built(means, s)];
    }

    method InternArray(element: nat, length: nat) returns (id: nat)
      requires Valid() && Known(Here(), element)
      modifies this
      ensures Valid() && Grown(old(Here()), old(means), Here(), means)
      ensures Interned(Here(), means, old(exceeded), exceeded, id, Array(Meaning(old(means), element), length),
                       |arrays| == SliceBase - ArrayBase)
    {
      hide Sound, Extends;
      SoundFits(Here(), means);
      var i := 0;
      while i < |arrays|
        invariant i <= |arrays|
        invariant forall k :: 0 <= k < i ==> arrays[k] != ArrayEntry(element, length)
      {
        if arrays[i] == ArrayEntry(element, length) {
          Found(Here(), means, ArrayBase + i, ArrayOf(element, length));
          return ArrayBase + i;
        }
        i := i + 1;
      }
      if |arrays| >= SliceBase - ArrayBase {
        exceeded := true;
        return ErrorType;
      }
      id := ArrayBase + |arrays|;
      ghost var t, s := Here(), ArrayOf(element, length);
      NoArray(t, element, length);
      NewArray(t, ArrayEntry(element, length));
      Added(t, t.(arrays := arrays + [ArrayEntry(element, length)]), means, id, s);
      arrays := arrays + [ArrayEntry(element, length)];
      means := means[id := Built(means, s)];
    }

    method InternSlice(element: nat, isConst: bool) returns (id: nat)
      requires Valid() && Known(Here(), element)
      modifies this
      ensures Valid() && Grown(old(Here()), old(means), Here(), means)
      ensures Interned(Here(), means, old(exceeded), exceeded, id, Slice(Meaning(old(means), element), isConst),
                       |slices| == FnBase - SliceBase)
    {
      hide Sound, Extends;
      SoundFits(Here(), means);
      var i := 0;
      while i < |slices|
        invariant i <= |slices|
        invariant forall k :: 0 <= k < i ==> slices[k] != SliceEntry(element, isConst)
      {
        if slices[i] == SliceEntry(element, isConst) {
          Found(Here(), means, SliceBase + i, SliceOf(element, isConst));
          return SliceBase + i;
        }
        i := i + 1;
      }
      if |slices| >= FnBase - SliceBase {
        exceeded := true;
        return ErrorType;
      }
      id := SliceBase + |slices|;
      ghost var t, s := Here(), SliceOf(element, isConst);
      NoSlice(t, element, isConst);
      NewSlice(t, SliceEntry(element, isConst));
      Added(t, t.(slices := slices + [SliceEntry(element, isConst)]), means, id, s);
      slices := slices + [SliceEntry(element, isConst)];
      means := means[id := Built(means, s)];
    }

    /** Whether the entry `f` has these parameters. */
    method SameParams(f: FnEntry, ids: seq<nat>) returns (same: bool)
      requires f.start + f.count <= |params| && f.count == |ids|
      ensures same <==> params[f.start..f.start + f.count] == ids
    {
      same := true;
      var j := 0;
      while j < |ids|
        invariant j <= |ids| && (same <==> forall k :: 0 <= k < j ==> params[f.start + k] == ids[k])
      {
        if params[f.start + j] != ids[j] {
          same := false;
        }
        j := j + 1;
      }
    }

    /** Function types without variadic arguments; variadic entries are never reused. */
    method InternFn(ids: seq<nat>, result: nat) returns (id: nat)
      requires Valid() && Known(Here(), result) && forall i :: 0 <= i < |ids| ==> Known(Here(), ids[i])
      modifies this
      ensures Valid() && Grown(old(Here()), old(means), Here(), means)
      ensures Interned(Here(), means, old(exceeded), exceeded, id,
                       Fn(Meanings(old(means), ids), Meaning(old(means), result), false), |fns| == DistinctBase - FnBase)
    {
      hide Sound, Extends, Full, Meanings;
      ghost var t, s := Here(), FnOf(ids, result, false);
      SoundFits(t, means);
      var i := 0;
      while i < |fns|
        invariant i <= |fns| && Here() == t && means == old(means) && exceeded == old(exceeded)
        invariant forall k :: 0 <= k < i ==> FnShape(t, t.fns[k]) != s
      {
        var f := fns[i];
        if f.result == result && f.count == |ids| && !f.variadic {
          var same := SameParams(f, ids);
          if same {
            FoundFn(t, means, i, s);
            return FnBase + i;
          }
        }
        i := i + 1;
      }
      if |fns| >= DistinctBase - FnBase {
        exceeded := true;
        return ErrorType;
      }
      id := FnBase + |fns|;
      var f := FnEntry(result, |params|, |ids|, false);
      NoFn(t, s);
      NewFn(t, f, ids);
      Added(t, t.(fns := fns + [f], params := params + ids), means, id, s);
      params := params + ids;
      fns := fns + [f];
      means := means[id := Built(means, s)];
    }

    /**
     The number of a type with arguments put in for its parameters. Interning may add entries
     on the way; the walk ends because what it descends to keeps its meaning.
     */
    method Substitute(id: nat, args: seq<nat>) returns (r: nat)
      requires Valid() && Known(Here(), id) && Within(Meaning(means, id), |args|)
      requires forall i :: 0 <= i < |args| ==> Known(Here(), args[i])
      modifies this
      ensures Valid() && Grown(old(Here()), old(means), Here(), means)
      ensures Known(Here(), r) && Raised(old(exceeded), exceeded, Here())
      ensures !exceeded ==> Meaning(means, r) == Limited(Meaning(old(means), id), Meanings(old(means), args))
      decreases Meaning(means, id), 1, 0
    {
      hide Sound, Limited;
      ghost var t, m, ty := Here(), means, Meaning(means, id);
      ghost var types := Meanings(m, args);
      GrownSame(t, m);
      LimitedStep(ty, types);
      if IsParam(id) {
        return args[id - ParamBase];
      }
      if !Compound(id) {
        return id;
      }
      Parts(t, m, id);
      if id < ArrayBase {
        var e := pointers[id - PointerBase];
        var target := SubstitutePart(e.target, args, t, m);
        GrownKeeps(t, m, Here(), means, e.target);
        if target == e.target {
          GrownKeeps(t, m, Here(), means, id);
          return id;
        }
        ghost var t1, m1, mid := Here(), means, exceeded;
        r := InternPointer(target, e.isConst);
        GrownMore(t, m, t1, m1, Here(), means);
        RaisedMore(old(exceeded), mid, exceeded, t1, m1, Here(), means);
      } else if id < SliceBase {
        var e := arrays[id - ArrayBase];
        var element := SubstitutePart(e.element, args, t, m);
        GrownKeeps(t, m, Here(), means, e.element);
        if element == e.element {
          GrownKeeps(t, m, Here(), means, id);
          return id;
        }
        ghost var t1, m1, mid := Here(), means, exceeded;
        r := InternArray(element, e.length);
        GrownMore(t, m, t1, m1, Here(), means);
        RaisedMore(old(exceeded), mid, exceeded, t1, m1, Here(), means);
      } else if id < FnBase {
        var e := slices[id - SliceBase];
        var element := SubstitutePart(e.element, args, t, m);
        GrownKeeps(t, m, Here(), means, e.element);
        if element == e.element {
          GrownKeeps(t, m, Here(), means, id);
          return id;
        }
        ghost var t1, m1, mid := Here(), means, exceeded;
        r := InternSlice(element, e.isConst);
        GrownMore(t, m, t1, m1, Here(), means);
        RaisedMore(old(exceeded), mid, exceeded, t1, m1, Here(), means);
      } else {
        r := SubstituteFn(id, args);
      }
    }

    method SubstituteFn(id: nat, args: seq<nat>) returns (r: nat)
      requires Valid() && FnBase <= id < DistinctBase && Known(Here(), id) && Within(Meaning(means, id), |args|)
      requires forall i :: 0 <= i < |args| ==> Known(Here(), args[i])
      modifies this
      ensures Valid() && Grown(old(Here()), old(means), Here(), means)
      ensures Known(Here(), r) && Raised(old(exceeded), exceeded, Here())
      ensures !exceeded ==> Meaning(means, r) == Limited(Meaning(old(means), id), Meanings(old(means), args))
      decreases Meaning(means, id), 0, 1
    {
      hide Sound, Limited;
      ghost var t, m, ty := Here(), means, Meaning(means, id);
      ghost var types := Meanings(m, args);
      Parts(t, m, id);
      FnParts(t, m, id);
      LimitedStep(ty, types);
      GrownSame(t, m);
      var f := fns[id - FnBase];
      if f.count > MaxFnParams || f.variadic {
        return id;
      }
      var ids, changed := SubstituteParams(f, id, args);
      ghost var t1, m1, x1 := Here(), means, exceeded;
      var result := SubstitutePart(f.result, args, t, m);
      ghost var t2, m2, x2 := Here(), means, exceeded;
      RaisedMore(old(exceeded), x1, x2, t1, m1, t2, m2);
      KnownAll(t1, m1, t2, m2, ids);
      GrownKeeps(t, m, t2, m2, f.result);
      if !changed && result == f.result {
        GrownKeeps(t, m, t2, m2, id);
        if !exceeded {
          Unchanged(t, m, t2, m2, ids, ty, types);
        }
        return id;
      }
      r := InternFn(ids, result);
      GrownMore(t, m, t2, m2, Here(), means);
      RaisedMore(old(exceeded), x2, exceeded, t2, m2, Here(), means);
      if !exceeded {
        Assembled(m2, ids, ty, types);
      }
    }

    method SubstituteParams(f: FnEntry, ghost id: nat, args: seq<nat>) returns (ids: seq<nat>, changed: bool)
      requires Valid() && FnBase <= id < DistinctBase && Known(Here(), id) && Within(Meaning(means, id), |args|)
      requires f == fns[id - FnBase]
      requires forall i :: 0 <= i < |args| ==> Known(Here(), args[i])
      modifies this
      ensures Valid() && Grown(old(Here()), old(means), Here(), means) && Raised(old(exceeded), exceeded, Here())
      ensures |ids| == f.count && forall k :: 0 <= k < |ids| ==> Known(Here(), ids[k])
      ensures !exceeded ==> Replaced(means, ids, Meaning(old(means), id), Meanings(old(means), args))
      ensures f.start + f.count <= |old(params)| && (!changed ==> ids == old(params)[f.start..f.start + f.count])
      decreases Meaning(means, id), 0, 0
    {
      hide Sound, Limited, Full;
      ghost var t, m, ty := Here(), means, Meaning(means, id);
      ghost var types := Meanings(m, args);
      Parts(t, m, id);
      FnParts(t, m, id);
      GrownSame(t, m);
      ids, changed := [], false;
      var i := 0;
      while i < f.count
        invariant i <= f.count && |ids| == i && Valid() && Grown(t, m, Here(), means) && Raised(old(exceeded), exceeded, Here())
        invariant forall k :: 0 <= k < i ==> Known(Here(), ids[k])
        invariant !exceeded ==> forall k :: 0 <= k < i ==> Meaning(means, ids[k]) == Limited(ty.params[k], types)
        invariant !changed ==> forall k :: 0 <= k < i ==> ids[k] == t.params[f.start + k]
      {
        ghost var t1, m1, mid := Here(), means, exceeded;
        var part := params[f.start + i];
        assert part == t.params[f.start + i];
        var p := SubstitutePart(part, args, t, m);
        RaisedMore(old(exceeded), mid, exceeded, t1, m1, Here(), means);
        KnownAll(t1, m1, Here(), means, ids);
        changed := changed || p != part;
        ids := ids + [p];
        i := i + 1;
      }
    }

    /** A component, at a time when the tables may have grown since `t`. */
    method SubstitutePart(id: nat, args: seq<nat>, ghost t: Tables, ghost m: map<nat, Ty>) returns (r: nat)
      requires Valid() && Sound(t, m) && Grown(t, m, Here(), means) && Known(t, id) && Within(Meaning(m, id), |args|)
      requires forall i :: 0 <= i < |args| ==> Known(t, args[i])
      modifies this
      ensures Valid() && Grown(old(Here()), old(means), Here(), means) && Grown(t, m, Here(), means)
      ensures Known(Here(), r) && Raised(old(exceeded), exceeded, Here())
      ensures !exceeded ==> Meaning(means, r) == Limited(Meaning(m, id), Meanings(m, args))
      decreases Meaning(m, id), 2, 0
    {
      hide Sound, Limited;
      ghost var t1, m1 := Here(), means;
      GrownKeeps(t, m, t1, m1, id);
      KnownAll(t, m, t1, m1, args);
      assert Meanings(m1, args) == Meanings(m, args);
      r := Substitute(id, args);
      GrownMore(t, m, t1, m1, Here(), means);
    }
  }

  /** Tables only grow at their ends, and numbers keep their meaning. */
  ghost predicate Grown(t: Tables, m: map<nat, Ty>, t': Tables, m': map<nat, Ty>) {
    && t.pointers <= t'.pointers && t.arrays <= t'.arrays && t.slices <= t'.slices && t.fns <= t'.fns && t.params <= t'.params
    && (forall id :: id in m ==> id in m' && m'[id] == m[id])
  }

  lemma GrownSame(t: Tables, m: map<nat, Ty>)
    ensures Grown(t, m, t, m)
  {
  }

  lemma GrownMore(t: Tables, m: map<nat, Ty>, t1: Tables, m1: map<nat, Ty>, t2: Tables, m2: map<nat, Ty>)
    requires Grown(t, m, t1, m1) && Grown(t1, m1, t2, m2)
    ensures Grown(t, m, t2, m2)
  {
  }

  lemma KnownAll(t: Tables, m: map<nat, Ty>, t': Tables, m': map<nat, Ty>, ids: seq<nat>)
    requires Sound(t, m) && Grown(t, m, t', m') && forall i :: 0 <= i < |ids| ==> Known(t, ids[i])
    ensures forall i :: 0 <= i < |ids| ==> Known(t', ids[i]) && Meaning(m', ids[i]) == Meaning(m, ids[i])
  {
    forall i | 0 <= i < |ids|
      ensures Known(t', ids[i]) && Meaning(m', ids[i]) == Meaning(m, ids[i])
    {
      GrownKeeps(t, m, t', m', ids[i]);
    }
  }

  /** The meaning of a compound type is made of its components' meanings. */
  lemma Parts(t: Tables, m: map<nat, Ty>, id: nat)
    requires Sound(t, m) && Compound(id) && Known(t, id)
    ensures Fits(t) && Present(t, id) && Meaning(m, id) == Built(m, ShapeOf(t, id))
    ensures forall part :: Uses(ShapeOf(t, id), part) ==> Known(t, part)
  {
  }

  lemma FnParts(t: Tables, m: map<nat, Ty>, id: nat)
    requires Sound(t, m) && FnBase <= id < DistinctBase && Known(t, id)
    ensures var f, ty := t.fns[id - FnBase], Meaning(m, id);
            && f.start + f.count <= |t.params| && ty.Fn? && |ty.params| == f.count && ty.variadic == f.variadic
            && ty.params == Meanings(m, t.params[f.start..f.start + f.count]) && ty.result == Meaning(m, f.result)
            && Known(t, f.result)
            && forall i :: 0 <= i < f.count ==> Known(t, t.params[f.start + i]) && ty.params[i] == Meaning(m, t.params[f.start + i])
  {
    Parts(t, m, id);
    var f := t.fns[id - FnBase];
    var ids := t.params[f.start..f.start + f.count];
    assert Uses(ShapeOf(t, id), f.result);
    forall i | 0 <= i < |ids|
      ensures Known(t, ids[i]) && ids[i] == t.params[f.start + i]
    {
      assert Uses(ShapeOf(t, id), ids[i]);
    }
  }

  lemma GrownKeeps(t: Tables, m: map<nat, Ty>, t': Tables, m': map<nat, Ty>, id: nat)
    requires Sound(t, m) && Grown(t, m, t', m') && Known(t, id)
    ensures Known(t', id) && Meaning(m', id) == Meaning(m, id)
  {
  }

  /** The number stands for the type, unless its table is full; only then is the flag raised. */
  ghost predicate Interned(t: Tables, m: map<nat, Ty>, was: bool, exceeded: bool, id: nat, ty: Ty, full: bool) {
    && Known(t, id)
    && ((exceeded == was && Meaning(m, id) == ty) || (full && exceeded && id == ErrorType))
  }

  /** The flag only goes up, and only when a table is full. */
  predicate Raised(was: bool, now: bool, t: Tables) {
    (was ==> now) && (now ==> was || Full(t))
  }

  /** Some table has no number left. */
  predicate Full(t: Tables) {
    || |t.pointers| == ArrayBase - PointerBase || |t.arrays| == SliceBase - ArrayBase
    || |t.slices| == FnBase - SliceBase || |t.fns| == DistinctBase - FnBase
  }

  lemma RaisedMore(was: bool, mid: bool, now: bool, t: Tables, m: map<nat, Ty>, t': Tables, m': map<nat, Ty>)
    requires Raised(was, mid, t) && Raised(mid, now, t') && Grown(t, m, t', m') && Sound(t', m')
    ensures Raised(was, now, t')
  {
    if mid && !was {
      FullStays(t, m, t', m');
    }
  }

  lemma FullStays(t: Tables, m: map<nat, Ty>, t': Tables, m': map<nat, Ty>)
    requires Full(t) && Grown(t, m, t', m') && Sound(t', m')
    ensures Full(t')
  {
  }

  lemma SoundFits(t: Tables, m: map<nat, Ty>)
    requires Sound(t, m)
    ensures Fits(t)
  {
  }

  lemma Found(t: Tables, m: map<nat, Ty>, id: nat, s: Shape)
    requires Sound(t, m) && Present(t, id) && ShapeOf(t, id) == s
    ensures Known(t, id) && Meaning(m, id) == Built(m, s)
  {
  }

  lemma FoundFn(t: Tables, m: map<nat, Ty>, i: nat, s: Shape)
    requires Sound(t, m) && i < |t.fns| && FnShape(t, t.fns[i]) == s
    ensures Known(t, FnBase + i) && Meaning(m, FnBase + i) == Built(m, s)
  {
    assert Present(t, FnBase + i);
  }

  lemma NoPointer(t: Tables, target: nat, isConst: bool)
    requires Fits(t) && forall k :: 0 <= k < |t.pointers| ==> t.pointers[k] != PointerEntry(target, isConst)
    ensures Lacks(t, PointerTo(target, isConst))
  {
  }

  lemma NoArray(t: Tables, element: nat, length: nat)
    requires Fits(t) && forall k :: 0 <= k < |t.arrays| ==> t.arrays[k] != ArrayEntry(element, length)
    ensures Lacks(t, ArrayOf(element, length))
  {
  }

  lemma NoSlice(t: Tables, element: nat, isConst: bool)
    requires Fits(t) && forall k :: 0 <= k < |t.slices| ==> t.slices[k] != SliceEntry(element, isConst)
    ensures Lacks(t, SliceOf(element, isConst))
  {
  }

  lemma NoFn(t: Tables, s: Shape)
    requires s.FnOf? && Fits(t) && forall k :: 0 <= k < |t.fns| ==> FnShape(t, t.fns[k]) != s
    ensures Lacks(t, s)
  {
  }

  lemma NewPointer(t: Tables, e: PointerEntry)
    requires Fits(t) && |t.pointers| < ArrayBase - PointerBase
    ensures Extends(t, t.(pointers := t.pointers + [e]), PointerBase + |t.pointers|, PointerTo(e.target, e.isConst))
  {
  }

  lemma NewArray(t: Tables, e: ArrayEntry)
    requires Fits(t) && |t.arrays| < SliceBase - ArrayBase
    ensures Extends(t, t.(arrays := t.arrays + [e]), ArrayBase + |t.arrays|, ArrayOf(e.element, e.length))
  {
  }

  lemma NewSlice(t: Tables, e: SliceEntry)
    requires Fits(t) && |t.slices| < FnBase - SliceBase
    ensures Extends(t, t.(slices := t.slices + [e]), SliceBase + |t.slices|, SliceOf(e.element, e.isConst))
  {
  }

  lemma NewFn(t: Tables, e: FnEntry, ids: seq<nat>)
    requires Fits(t) && |t.fns| < DistinctBase - FnBase && e.start == |t.params| && e.count == |ids|
    ensures Extends(t, t.(fns := t.fns + [e], params := t.params + ids), FnBase + |t.fns|, FnOf(ids, e.result, e.variadic))
  {
    var t' := t.(fns := t.fns + [e], params := t.params + ids);
    forall k: nat | Present(t, k)
      ensures ShapeOf(t', k) == ShapeOf(t, k)
    {
      if k >= FnBase {
        var f := t.fns[k - FnBase];
        assert t'.params[f.start..f.start + f.count] == t.params[f.start..f.start + f.count];
      }
    }
    assert t'.params[e.start..e.start + e.count] == ids;
  }
}
