/** Turning the dates and object ids in a result into strings. */
module TransferObject {
  import opened Wrappers

  /**
   `iso` is None for an invalid date, whose conversion throws.  A bare object has no prototype, so inside another
   container it is not recognised as an object.
   */
  datatype Value =
    | Date(iso: Option<string>)
    | ObjectId(hex: string)
    | Text(text: string)
    | Other(tag: int)
    | Arr(items: seq<Value>)
    | Obj(fields: seq<Field>)
    | Bare(fields: seq<Field>)

  datatype Field = Field(key: string, value: Value)

  datatype Error = TooDeep | InvalidDate

  const MAX_DEEP: nat := 12

  predicate IsRaw(v: Value) {
    v.Date? || v.ObjectId?
  }

  predicate IsContainer(v: Value) {
    v.Arr? || v.Obj? || v.Bare?
  }

  // ---- what the transform is to do ----

  /** A container with everything in it converted; a date that is no part of a container stays. */
  function Deep(v: Value): Value
    decreases v, 0
  {
    match v
    case Arr(items) => Arr(seq(|items|, i requires 0 <= i < |items| => Converted(items[i])))
    case Obj(fields) => Obj(seq(|fields|, i requires 0 <= i < |fields| => Field(fields[i].key, Converted(fields[i].value))))
    case Bare(fields) => Bare(seq(|fields|, i requires 0 <= i < |fields| => Field(fields[i].key, Converted(fields[i].value))))
    case _ => v
  }

  /** What becomes of a part of a container; a bare object is left alone. */
  function Converted(v: Value): Value
    decreases v, 1
  {
    match v
    case Date(Some(iso)) => Text(iso)
    case ObjectId(hex) => Text(hex)
    case Bare(_) => v
    case _ => Deep(v)
  }

  /** Containers nest at most `n` levels, and the dates in them are valid. */
  predicate Fits(v: Value, n: nat)
    decreases v, 0
  {
    match v
    case Arr(items) => n > 0 && forall i :: 0 <= i < |items| ==> FitsInside(items[i], n - 1)
    case Obj(fields) => n > 0 && forall i :: 0 <= i < |fields| ==> FitsInside(fields[i].value, n - 1)
    case Bare(fields) => n > 0 && forall i :: 0 <= i < |fields| ==> FitsInside(fields[i].value, n - 1)
    case _ => true
  }

  predicate FitsInside(v: Value, n: nat)
    decreases v, 1
  {
    v.Bare? || (v != Date(None) && Fits(v, n))
  }

  /** What a reference to the value sees afterwards: objects are overwritten, arrays are copied. */
  function InPlace(v: Value): Value {
    match v
    case Arr(items) => Arr(seq(|items|, i requires 0 <= i < |items| => if items[i].Bare? then items[i] else InPlace(items[i])))
    case _ => Deep(v)
  }

  function InPlaceInside(v: Value): Value {
    if v.Bare? then v else InPlace(v)
  }

  // ---- the program ----

  /** What `map` makes of one element, and what becomes of the element itself. */
  method TransformElement(el: Value, depth: nat) returns (r: Result<Value, Error>, left: Value)
    requires depth < MAX_DEEP
    ensures r.Success? <==> FitsInside(el, MAX_DEEP - depth - 1)
    ensures r.Success? ==> r.value == Converted(el) && left == InPlaceInside(el)
    decreases MAX_DEEP - depth, 0
  {
    left := el;
    match el {
      case Date(iso) =>
        r := if iso.Some? then Success(Text(iso.value)) else Failure(InvalidDate);
      case ObjectId(hex) =>
        r := Success(Text(hex));
      case Arr(_) =>
        r, left := DeepTransform(el, depth + 1);
      case Obj(_) =>
        r, left := DeepTransform(el, depth + 1);
      case _ =>
        r := Success(el);
    }
  }

  /** What the loop over the keys assigns to one of them; an array is visited twice. */
  method TransformField(value: Value, depth: nat) returns (r: Result<Value, Error>)
    requires depth < MAX_DEEP
    ensures r.Success? <==> FitsInside(value, MAX_DEEP - depth - 1)
    ensures r.Success? ==> r.value == Converted(value)
    decreases MAX_DEEP - depth, 0
  {
    var current := value;
    if current.Date? {
      if current.iso.None? {
        return Failure(InvalidDate);
      }
      current := Text(current.iso.value);
    }
    if current.ObjectId? {
      current := Text(current.hex);
    }
    var left;
    if current.Arr? {
      r, left := DeepTransform(current, depth + 1);
      if r.Failure? {
        return;
      }
      current := r.value;
    }
    if current.Arr? || current.Obj? {
      DeepTwice(value);
      DeepFits(value, MAX_DEEP - depth - 1);
      r, left := DeepTransform(current, depth + 1);
      return;
    }
    r := Success(current);
  }

  /** The loop over the keys of an object, which assigns them in place. */
  method TransformFields(fields: seq<Field>, depth: nat) returns (r: Result<seq<Field>, Error>)
    requires depth < MAX_DEEP
    ensures r.Success? <==> forall k :: 0 <= k < |fields| ==> FitsInside(fields[k].value, MAX_DEEP - depth - 1)
    ensures r.Success? ==> |r.value| == |fields|
    ensures r.Success? ==> forall k :: 0 <= k < |fields| ==> r.value[k] == Field(fields[k].key, Converted(fields[k].value))
    decreases MAX_DEEP - depth, 1
  {
    var current := fields;
    for i := 0 to |fields|
      invariant |current| == |fields|
      invariant forall k :: 0 <= k < i ==> FitsInside(fields[k].value, MAX_DEEP - depth - 1)
      invariant forall k :: 0 <= k < |fields| ==>
                  current[k] == if k < i then Field(fields[k].key, Converted(fields[k].value)) else fields[k]
    {
      var value := TransformField(current[i].value, depth);
      if value.Failure? {
        return Failure(value.error);
      }
      current := current[i := current[i].(value := value.value)];
    }
    return Success(current);
  }

  method DeepTransform(data: Value, depth: nat) returns (r: Result<Value, Error>, left: Value)
    requires depth <= MAX_DEEP
    ensures r.Success? <==> depth < MAX_DEEP && Fits(data, MAX_DEEP - depth)
    ensures r.Success? ==> r.value == Deep(data) && left == InPlace(data)
    decreases MAX_DEEP - depth, 2
  {
    left := data;
    if depth >= MAX_DEEP {
      return Failure(TooDeep), left;
    }
    match data {
      case Arr(items) =>
        var mapped, kept := [], [];
        for i := 0 to |items|
          invariant |mapped| == |kept| == i
          invariant forall k :: 0 <= k < i ==> FitsInside(items[k], MAX_DEEP - depth - 1)
          invariant forall k :: 0 <= k < i ==> mapped[k] == Converted(items[k]) && kept[k] == InPlaceInside(items[k])
        {
          var el, rest := TransformElement(items[i], depth);
          if el.Failure? {
            return Failure(el.error), left;
          }
          mapped, kept := mapped + [el.value], kept + [rest];
        }
        r, left := Success(Arr(mapped)), Arr(kept);
      case Obj(fields) =>
        var current := TransformFields(fields, depth);
        if current.Failure? {
          return Failure(current.error), left;
        }
        r, left := Success(Obj(current.value)), Obj(current.value);
      case Bare(fields) =>
        var current := TransformFields(fields, depth);
        if current.Failure? {
          return Failure(current.error), left;
        }
        r, left := Success(Bare(current.value)), Bare(current.value);
      case _ =>
        r := Success(data);
    }
  }

  class Context {
    var result: Value

    constructor (result: Value)
      ensures this.result == result
    {
      this.result := result;
    }

    /** The hook: it keeps its result and drops the one of the transform. */
    method TransformToDataTransferObject() returns (ok: bool)
      modifies this
      ensures ok <==> Fits(old(result), MAX_DEEP)
      ensures ok ==> result == InPlace(old(result))
    {
      var r, left := DeepTransform(result, 0);
      result := left;
      return r.Success?;
    }
  }

  // ---- what the transform achieves ----

  ghost predicate Clean(v: Value)
    decreases v
  {
    match v
    case Arr(items) => forall i :: 0 <= i < |items| ==> Clean(items[i])
    case Obj(fields) => forall i :: 0 <= i < |fields| ==> Clean(fields[i].value)
    case Bare(fields) => forall i :: 0 <= i < |fields| ==> Clean(fields[i].value)
    case _ => !IsRaw(v)
  }

  /** Bare objects inside other containers hold no date and no object id. */
  ghost predicate HidesNothing(v: Value)
    decreases v, 0
  {
    match v
    case Arr(items) => forall i :: 0 <= i < |items| ==> HidesNothingInside(items[i])
    case Obj(fields) => forall i :: 0 <= i < |fields| ==> HidesNothingInside(fields[i].value)
    case Bare(fields) => forall i :: 0 <= i < |fields| ==> HidesNothingInside(fields[i].value)
    case _ => true
  }

  ghost predicate HidesNothingInside(v: Value)
    decreases v, 1
  {
    if v.Bare? then Clean(v) else HidesNothing(v)
  }

  /** The same containers with the same keys, the texts of dates and object ids, and otherwise the same parts. */
  ghost predicate SameShape(v: Value, w: Value)
    decreases v, 0
  {
    match v
    case Arr(items) => w.Arr? && |w.items| == |items| && forall i :: 0 <= i < |items| ==> SameInside(items[i], w.items[i])
    case Obj(fields) => w.Obj? && |w.fields| == |fields|
      && forall i :: 0 <= i < |fields| ==> fields[i].key == w.fields[i].key && SameInside(fields[i].value, w.fields[i].value)
    case Bare(fields) => w.Bare? && |w.fields| == |fields|
      && forall i :: 0 <= i < |fields| ==> fields[i].key == w.fields[i].key && SameInside(fields[i].value, w.fields[i].value)
    case Date(iso) => iso.Some? && w == Text(iso.value)
    case ObjectId(hex) => w == Text(hex)
    case _ => w == v
  }

  ghost predicate SameInside(v: Value, w: Value)
    decreases v, 1
  {
    if v.Bare? then w == v else SameShape(v, w)
  }

  /** What is claimed of a part `v` and what it is converted to. */
  ghost predicate IsConverted(v: Value, c: Value) {
    c == Converted(v) && (Clean(c) <==> HidesNothingInside(v)) && SameInside(v, c) && Converted(c) == c
  }

  lemma {:induction false} ConvertedIsClean(v: Value, n: nat)
    requires FitsInside(v, n)
    ensures IsConverted(v, Converted(v))
    decreases v
  {
    if v.Arr? || v.Obj? {
      PartsAreConverted(v, n);
      DeepIsClean(v);
    }
  }

  lemma {:induction false} PartsAreConverted(v: Value, n: nat)
    requires Fits(v, n)
    ensures v.Arr? ==> forall i :: 0 <= i < |v.items| ==> IsConverted(v.items[i], Deep(v).items[i])
    ensures v.Obj? || v.Bare? ==> forall i :: 0 <= i < |v.fields| ==> IsConverted(v.fields[i].value, Deep(v).fields[i].value)
    decreases v, 0
  {
    match v
    case Arr(items) =>
      forall i | 0 <= i < |items| ensures IsConverted(items[i], Deep(v).items[i]) {
        ConvertedIsClean(items[i], n - 1);
      }
    case Obj(fields) =>
      forall i | 0 <= i < |fields| ensures IsConverted(fields[i].value, Deep(v).fields[i].value) {
        ConvertedIsClean(fields[i].value, n - 1);
      }
    case Bare(fields) =>
      forall i | 0 <= i < |fields| ensures IsConverted(fields[i].value, Deep(v).fields[i].value) {
        ConvertedIsClean(fields[i].value, n - 1);
      }
    case _ =>
  }

  lemma {:induction false} DeepIsClean(v: Value)
    requires IsContainer(v)
    requires v.Arr? ==> forall i :: 0 <= i < |v.items| ==> IsConverted(v.items[i], Deep(v).items[i])
    requires v.Obj? || v.Bare? ==> forall i :: 0 <= i < |v.fields| ==> IsConverted(v.fields[i].value, Deep(v).fields[i].value)
    ensures (Clean(Deep(v)) <==> HidesNothing(v)) && SameShape(v, Deep(v)) && Deep(Deep(v)) == Deep(v)
  {
    var w := Deep(v);
    if v.Arr? {
      assert w.Arr? && |w.items| == |v.items|;
    } else {
      assert |w.fields| == |v.fields| && forall i :: 0 <= i < |v.fields| ==> w.fields[i].key == v.fields[i].key;
    }
  }

  /**
   The transform of a container keeps its shape and changes nothing a second time; it leaves no date and no object id
   exactly if no bare object inside holds one.
   */
  lemma {:induction false} TransformIsCleanAndIdempotent(v: Value)
    requires IsContainer(v) && Fits(v, MAX_DEEP)
    ensures (Clean(Deep(v)) <==> HidesNothing(v)) && SameShape(v, Deep(v)) && Deep(Deep(v)) == Deep(v)
  {
    PartsAreConverted(v, MAX_DEEP);
    DeepIsClean(v);
  }

  lemma {:induction false} ConvertedTwice(v: Value)
    ensures Converted(Converted(v)) == Converted(v)
    decreases v
  {
    match v
    case Arr(items) =>
      forall i | 0 <= i < |items| ensures Converted(Converted(items[i])) == Converted(items[i]) {
        ConvertedTwice(items[i]);
      }
    case Obj(fields) =>
      forall i | 0 <= i < |fields| ensures Converted(Converted(fields[i].value)) == Converted(fields[i].value) {
        ConvertedTwice(fields[i].value);
      }
    case _ =>
  }

  /** Visiting a nested array twice is visiting it once. */
  lemma {:induction false} DeepTwice(v: Value)
    ensures Deep(Deep(v)) == Deep(v)
  {
    match v
    case Bare(fields) =>
      forall i | 0 <= i < |fields| ensures Converted(Converted(fields[i].value)) == Converted(fields[i].value) {
        ConvertedTwice(fields[i].value);
      }
    case Arr(_) => ConvertedTwice(v);
    case Obj(_) => ConvertedTwice(v);
    case _ =>
  }

  lemma {:induction false} ConvertedFits(v: Value, n: nat)
    ensures FitsInside(Converted(v), n) <==> FitsInside(v, n)
    decreases v
  {
    match v
    case Arr(items) =>
      var w := Deep(v);
      forall i | n > 0 && 0 <= i < |items| ensures FitsInside(w.items[i], n - 1) <==> FitsInside(items[i], n - 1) {
        ConvertedFits(items[i], n - 1);
      }
    case Obj(fields) =>
      var w := Deep(v);
      forall i | n > 0 && 0 <= i < |fields| ensures FitsInside(w.fields[i].value, n - 1) <==> FitsInside(fields[i].value, n - 1) {
        ConvertedFits(fields[i].value, n - 1);
      }
    case _ =>
  }

  lemma {:induction false} DeepFits(v: Value, n: nat)
    ensures Fits(Deep(v), n) <==> Fits(v, n)
  {
    match v
    case Bare(fields) =>
      var w := Deep(v);
      forall i | n > 0 && 0 <= i < |fields| ensures FitsInside(w.fields[i].value, n - 1) <==> FitsInside(fields[i].value, n - 1) {
        ConvertedFits(fields[i].value, n - 1);
      }
    case Arr(_) => ConvertedFits(v, n);
    case Obj(_) => ConvertedFits(v, n);
    case _ =>
  }

  // ---- what the hook leaves behind ----

  /** No date and no object id is reached from the result through arrays alone, and bare objects inside hold none. */
  ghost predicate LeavesNothing(v: Value) {
    match v
    case Arr(items) => forall i :: 0 <= i < |items| ==> if items[i].Bare? then Clean(items[i]) else LeavesNothing(items[i])
    case _ => !IsRaw(v) && HidesNothing(v)
  }

  /**
   What the hook hands on is free of dates and object ids exactly when none was reached through arrays alone, and none
   was inside a bare object inside another container.
   */
  lemma {:induction false} HookIsCleanIff(v: Value, n: nat)
    requires Fits(v, n)
    ensures Clean(InPlace(v)) <==> LeavesNothing(v)
    decreases v
  {
    match v
    case Arr(items) =>
      var w := InPlace(v);
      forall i | 0 <= i < |items|
        ensures Clean(w.items[i]) <==> if items[i].Bare? then Clean(items[i]) else LeavesNothing(items[i])
      {
        if !items[i].Bare? {
          HookIsCleanIff(items[i], n - 1);
        }
      }
    case Obj(fields) =>
      PartsAreConverted(v, n);
      DeepIsClean(v);
    case Bare(fields) =>
      PartsAreConverted(v, n);
      DeepIsClean(v);
    case _ =>
  }

  /** An example: a list with a date is handed on as it is. */
  lemma DateInAListStays(iso: string)
    ensures var result := Arr([Date(Some(iso))]);
            Fits(result, MAX_DEEP) && InPlace(result) == result && !Clean(InPlace(result)) && Clean(Deep(result))
  {
    var result := Arr([Date(Some(iso))]);
    assert InPlace(result).items[0] == Date(Some(iso));
    assert Deep(result).items[0] == Text(iso);
    assert InPlace(result).items == result.items;
  }

  // ---- the parts of a result ----

  /** The value is the part at index `i` of a container. */
  predicate IsPart(v: Value, i: nat, w: Value) {
    match v
    case Arr(items) => i < |items| && items[i] == w
    case Obj(fields) => i < |fields| && fields[i].value == w
    case Bare(fields) => i < |fields| && fields[i].value == w
    case _ => false
  }

  /** `w` is reached from `v` by going from part to part, which ends at bare objects. */
  ghost predicate Reached(v: Value, path: seq<nat>, w: Value)
    decreases |path|
  {
    if path == [] then v == w
    else exists part :: IsPart(v, path[0], part) && !part.Bare? && Reached(part, path[1..], w)
  }

  /** Nothing that is reached is an invalid date, or a container at level `n` or deeper. */
  ghost predicate NothingForbids(v: Value, n: nat) {
    forall path, w :: Reached(v, path, w) ==> (IsContainer(w) ==> |path| < n) && (path != [] ==> w != Date(None))
  }

  lemma {:induction false} FittingReaches(v: Value, n: nat, path: seq<nat>, w: Value)
    requires Fits(v, n) && Reached(v, path, w)
    ensures IsContainer(w) ==> |path| < n
    ensures path != [] ==> w != Date(None)
    decreases |path|
  {
    if path != [] {
      var part :| IsPart(v, path[0], part) && !part.Bare? && Reached(part, path[1..], w);
      assert FitsInside(part, n - 1);
      FittingReaches(part, n - 1, path[1..], w);
    }
  }

  lemma {:induction false} UnforbiddenFits(v: Value, n: nat)
    requires NothingForbids(v, n)
    ensures Fits(v, n)
    decreases v
  {
    assert Reached(v, [], v);
    if IsContainer(v) {
      forall i: nat, part | IsPart(v, i, part) ensures FitsInside(part, n - 1) {
        if !part.Bare? {
          PartIsUnforbidden(v, n, i, part);
          UnforbiddenFits(part, n - 1);
          assert Reached(part, [], part) && [i][1..] == [];
          assert Reached(v, [i], part);
        }
      }
    }
    match v
    case Arr(items) => assert forall i :: 0 <= i < |items| ==> IsPart(v, i, items[i]);
    case Obj(fields) => assert forall i :: 0 <= i < |fields| ==> IsPart(v, i, fields[i].value);
    case Bare(fields) => assert forall i :: 0 <= i < |fields| ==> IsPart(v, i, fields[i].value);
    case _ =>
  }

  lemma PartIsUnforbidden(v: Value, n: nat, i: nat, part: Value)
    requires NothingForbids(v, n) && n > 0 && IsPart(v, i, part) && !part.Bare?
    ensures NothingForbids(part, n - 1)
  {
    forall path, w | Reached(part, path, w) ensures (IsContainer(w) ==> |path| < n - 1) && (path != [] ==> w != Date(None)) {
      assert ([i] + path)[1..] == path;
      assert Reached(v, [i] + path, w);
    }
  }

  /** The transform succeeds exactly if no container is reached in 12 steps or more, and no invalid date at all. */
  lemma {:induction false} SucceedsIff(v: Value)
    ensures Fits(v, MAX_DEEP) <==> NothingForbids(v, 12)
  {
    if Fits(v, MAX_DEEP) {
      forall path, w | Reached(v, path, w) ensures (IsContainer(w) ==> |path| < 12) && (path != [] ==> w != Date(None)) {
        FittingReaches(v, MAX_DEEP, path, w);
      }
    } else if NothingForbids(v, 12) {
      UnforbiddenFits(v, MAX_DEEP);
    }
  }

  /** `w` is reached from `v` through arrays alone. */
  ghost predicate ReachedByArrays(v: Value, path: seq<nat>, w: Value)
    decreases |path|
  {
    if path == [] then v == w
    else v.Arr? && path[0] < |v.items| && ReachedByArrays(v.items[path[0]], path[1..], w)
  }

  /** What the hook hands on has at every place in its lists what was there, but for objects, which are converted. */
  lemma {:induction false} ListsAreHandedOn(v: Value, path: seq<nat>, w: Value)
    requires ReachedByArrays(v, path, w) && !w.Arr?
    ensures ReachedByArrays(InPlace(v), path, if w.Obj? || (w.Bare? && path == []) then Deep(w) else w)
    decreases |path|
  {
    if path != [] && !v.items[path[0]].Bare? {
      ListsAreHandedOn(v.items[path[0]], path[1..], w);
    }
  }

  lemma {:induction false} ListsKeepTheirLength(v: Value, path: seq<nat>, w: Value)
    requires ReachedByArrays(v, path, w) && w.Arr?
    ensures exists u :: ReachedByArrays(InPlace(v), path, u) && u.Arr? && |u.items| == |w.items|
    decreases |path|
  {
    if path == [] {
      assert ReachedByArrays(InPlace(v), path, InPlace(v));
    } else {
      ListsKeepTheirLength(v.items[path[0]], path[1..], w);
      var u :| ReachedByArrays(InPlace(v.items[path[0]]), path[1..], u) && u.Arr? && |u.items| == |w.items|;
      assert ReachedByArrays(InPlace(v), path, u);
    }
  }
}
