/**
  What a `BaseModel` instance holds and computes, as values: the attributes
  `__init__` sets, the kwargs loop, `to_dict()`, `__str__()` and the key the
  storage files it under. The classes in module Models run these steps on
  their fields.
*/
module Records {
  import opened Wrappers
  import opened DateTimes
  import opened AttrBag
  import opened Values

  /** `type(self).__name__` of the class modelled here. */
  const ClassName: string := "BaseModel"

  /** An instance `__dict__`, in insertion order. */
  type Attrs = Bag<Value>

  datatype Error =
    /** A keyword argument named "self" clashes with the instance parameter (TypeError). */
    | ArgumentClash
    /** `strptime` was given something other than a string (TypeError). */
    | NotAString(key: string)
    /** `strptime` could not match the text against the format (ValueError). */
    | BadTimestamp(key: string, text: string)
    /** `to_dict` found a timestamp attribute without an `isoformat()` (AttributeError). */
    | NoIsoformat(key: string)

  predicate IsTimestampKey(k: string)
  {
    k == "created_at" || k == "updated_at"
  }

  /** What every instance keeps: distinct keys, with id, created_at and updated_at first. */
  predicate WellFormed(attrs: Attrs)
  {
    && DistinctKeys(attrs)
    && |attrs| >= 3
    && attrs[0].0 == "id" && attrs[1].0 == "created_at" && attrs[2].0 == "updated_at"
  }

  /** The attribute names the model treats specially are different names. */
  lemma ReservedKeysDistinct()
    ensures "id" != "created_at" && "id" != "updated_at" && "created_at" != "updated_at"
    ensures "__class__" != "id" && "__class__" != "created_at" && "__class__" != "updated_at"
    ensures "self" != "__class__" && "self" != "id" && "self" != "created_at" && "self" != "updated_at"
  {
    assert |"id"| == 2 && |"self"| == 4 && |"__class__"| == 9 && |"created_at"| == 10;
    assert "created_at"[0] != "updated_at"[0];
  }

  /** The attributes `__init__` sets first: a fresh id and two clock readings. */
  function Defaults(id: string, createdAt: ValidDateTime, updatedAt: ValidDateTime): Attrs
  {
    [("id", Str(id)), ("created_at", Time(createdAt)), ("updated_at", Time(updatedAt))]
  }

  /** Assigning any attribute keeps the attributes well formed. */
  lemma {:induction false} PutWellFormed(attrs: Attrs, k: string, v: Value)
    requires WellFormed(attrs)
    ensures WellFormed(Put(attrs, k, v))
    ensures Put(attrs, k, v)[0] == (if k == "id" then (k, v) else attrs[0])
  {
    PutDistinct(attrs, k, v);
    PutKeys(attrs, k, v);
    if k in Keys(attrs) {
      var i := KeyIndex(attrs, k);
      PutInPlace(attrs, k, v, i);
    } else {
      PutAppends(attrs, k, v);
    }
  }

  /** The defaults are well formed and hold the id and the two readings under their names. */
  lemma {:induction false} DefaultsFacts(id: string, createdAt: ValidDateTime, updatedAt: ValidDateTime)
    ensures var b := Defaults(id, createdAt, updatedAt);
      && WellFormed(b)
      && Keys(b) == ["id", "created_at", "updated_at"]
      && Lookup(b, "id") == Some(Str(id))
      && Lookup(b, "created_at") == Some(Time(createdAt))
      && Lookup(b, "updated_at") == Some(Time(updatedAt))
  {
    var b := Defaults(id, createdAt, updatedAt);
    ReservedKeysDistinct();
    LookupAt(b, 0);
    LookupAt(b, 1);
    LookupAt(b, 2);
  }

  /**
    A fresh instance's created_at is no later than its updated_at when the clock
    never goes back between the two readings, and the two are equal exactly
    when the second reading is no later than the first: only a clock that
    stood still gives equal timestamps.
  */
  lemma FreshTimestamps(id: string, createdAt: ValidDateTime, updatedAt: ValidDateTime)
    requires NotAfter(createdAt, updatedAt)
    ensures var b := Defaults(id, createdAt, updatedAt);
      && TimeOf(b, "created_at").Some? && TimeOf(b, "updated_at").Some?
      && NotAfter(TimeOf(b, "created_at").value, TimeOf(b, "updated_at").value)
      && (TimeOf(b, "created_at") == TimeOf(b, "updated_at") <==> NotAfter(updatedAt, createdAt))
  {
    DefaultsFacts(id, createdAt, updatedAt);
    if NotAfter(updatedAt, createdAt) {
      NotAfterAntisymmetric(createdAt, updatedAt);
    }
    NotAfterReflexive(createdAt);
  }

  /** What `__init__` stores for one keyword argument: timestamps are parsed, the rest kept as given. */
  function Converted(k: string, v: Value): Result<Value, Error>
  {
    if IsTimestampKey(k) then
      match v
      case Str(text) =>
        (match Parse(text)
         case Some(t) => Success(Time(t))
         case None => Failure(BadTimestamp(k, text)))
      case _ => Failure(NotAString(k))
    else Success(v)
  }

  predicate Accepted(e: (string, Value))
  {
    Converted(e.0, e.1).Success?
  }

  /** The kwargs loop: each argument in order is written into the bag; the first failure ends it. */
  function ApplyKwargs(attrs: Attrs, kwargs: Attrs): Result<Attrs, Error>
    decreases |kwargs|
  {
    if kwargs == [] then Success(attrs)
    else match Converted(kwargs[0].0, kwargs[0].1)
      case Failure(e) => Failure(e)
      case Success(v) => ApplyKwargs(Put(attrs, kwargs[0].0, v), kwargs[1..])
  }

  /**
    The attributes `BaseModel(**kwargs)` ends with, given the id `uuid4()`
    produced and the two readings of the clock; with no kwargs these are the
    defaults.
  */
  function Init(kwargs: Attrs, id: string, createdAt: ValidDateTime, updatedAt: ValidDateTime)
    : Result<Attrs, Error>
  {
    if "self" in Keys(kwargs) then Failure(ArgumentClash)
    else ApplyKwargs(Defaults(id, createdAt, updatedAt), kwargs)
  }

  /** The datetime stored under `k`, if a datetime is stored there. */
  function TimeOf(attrs: Attrs, k: string): Option<ValidDateTime>
  {
    match Lookup(attrs, k)
    case Some(v) => if v.Time? then Some(v.t) else None
    case None => None
  }

  /** `to_dict()`'s value for key `k`, when both timestamps are datetimes. */
  function Exported(attrs: Attrs, k: string): Option<Value>
    requires TimeOf(attrs, "created_at").Some? && TimeOf(attrs, "updated_at").Some?
  {
    if k == "__class__" then Some(Str(ClassName))
    else if IsTimestampKey(k) then Some(Str(IsoFormat(TimeOf(attrs, k).value, 'T')))
    else Lookup(attrs, k)
  }

  /**
    `to_dict()`: a copy of the attributes in which `__class__` is the class name
    and the two timestamps are their `isoformat()` strings. It fails when a
    timestamp attribute is not a datetime, created_at being looked at first.
  */
  function ToDictOf(attrs: Attrs): (r: Result<Attrs, Error>)
    ensures TimeOf(attrs, "created_at").None? ==> r == Failure(NoIsoformat("created_at"))
    ensures TimeOf(attrs, "created_at").Some? && TimeOf(attrs, "updated_at").None?
            ==> r == Failure(NoIsoformat("updated_at"))
    ensures r.Success? <==> TimeOf(attrs, "created_at").Some? && TimeOf(attrs, "updated_at").Some?
    ensures r.Success? ==>
              Keys(r.value) == Keys(attrs) + (if "__class__" in Keys(attrs) then [] else ["__class__"])
    ensures r.Success? ==> forall k :: Lookup(r.value, k) == Exported(attrs, k)
    ensures r.Success? && DistinctKeys(attrs) ==> DistinctKeys(r.value)
  {
    match TimeOf(attrs, "created_at")
    case None => Failure(NoIsoformat("created_at"))
    case Some(created) =>
      match TimeOf(attrs, "updated_at")
      case None => Failure(NoIsoformat("updated_at"))
      case Some(updated) =>
        var d0 := Put(attrs, "__class__", Str(ClassName));
        var d1 := Put(d0, "created_at", Str(IsoFormat(created, 'T')));
        var d2 := Put(d1, "updated_at", Str(IsoFormat(updated, 'T')));
        ToDictSteps(attrs, created, updated);
        Success(d2)
  }

  lemma {:induction false} ToDictSteps(attrs: Attrs, created: ValidDateTime, updated: ValidDateTime)
    requires TimeOf(attrs, "created_at") == Some(created) && TimeOf(attrs, "updated_at") == Some(updated)
    ensures var d0 := Put(attrs, "__class__", Str(ClassName));
      var d1 := Put(d0, "created_at", Str(IsoFormat(created, 'T')));
      var d2 := Put(d1, "updated_at", Str(IsoFormat(updated, 'T')));
      && Keys(d2) == Keys(attrs) + (if "__class__" in Keys(attrs) then [] else ["__class__"])
      && (forall k :: Lookup(d2, k) == Exported(attrs, k))
      && (DistinctKeys(attrs) ==> DistinctKeys(d2))
  {
    ToDictKeys(attrs, created, updated);
    ToDictLookup(attrs, created, updated);
    var d0 := Put(attrs, "__class__", Str(ClassName));
    var d1 := Put(d0, "created_at", Str(IsoFormat(created, 'T')));
    if DistinctKeys(attrs) {
      PutDistinct(attrs, "__class__", Str(ClassName));
      PutDistinct(d0, "created_at", Str(IsoFormat(created, 'T')));
      PutDistinct(d1, "updated_at", Str(IsoFormat(updated, 'T')));
    }
  }

  lemma {:induction false} ToDictKeys(attrs: Attrs, created: ValidDateTime, updated: ValidDateTime)
    requires TimeOf(attrs, "created_at") == Some(created) && TimeOf(attrs, "updated_at") == Some(updated)
    ensures var d0 := Put(attrs, "__class__", Str(ClassName));
      var d1 := Put(d0, "created_at", Str(IsoFormat(created, 'T')));
      var d2 := Put(d1, "updated_at", Str(IsoFormat(updated, 'T')));
      Keys(d2) == Keys(attrs) + (if "__class__" in Keys(attrs) then [] else ["__class__"])
  {
    var d0 := Put(attrs, "__class__", Str(ClassName));
    var d1 := Put(d0, "created_at", Str(IsoFormat(created, 'T')));
    ReservedKeysDistinct();
    LookupPresent(attrs, "created_at");
    LookupPresent(attrs, "updated_at");
    PutKeys(attrs, "__class__", Str(ClassName));
    PutKeys(d0, "created_at", Str(IsoFormat(created, 'T')));
    PutKeys(d1, "updated_at", Str(IsoFormat(updated, 'T')));
  }

  lemma {:induction false} ToDictLookup(attrs: Attrs, created: ValidDateTime, updated: ValidDateTime)
    requires TimeOf(attrs, "created_at") == Some(created) && TimeOf(attrs, "updated_at") == Some(updated)
    ensures var d0 := Put(attrs, "__class__", Str(ClassName));
      var d1 := Put(d0, "created_at", Str(IsoFormat(created, 'T')));
      var d2 := Put(d1, "updated_at", Str(IsoFormat(updated, 'T')));
      forall k :: Lookup(d2, k) == Exported(attrs, k)
  {
    var d0 := Put(attrs, "__class__", Str(ClassName));
    var d1 := Put(d0, "created_at", Str(IsoFormat(created, 'T')));
    ReservedKeysDistinct();
    PutLookup(attrs, "__class__", Str(ClassName));
    PutLookup(d0, "created_at", Str(IsoFormat(created, 'T')));
    PutLookup(d1, "updated_at", Str(IsoFormat(updated, 'T')));
  }

  /**
    `__str__()`: "[<class>] (<id>) <the attribute dict>", where the id is the
    `id` attribute (reading `self.id` when there is none raises, so the
    model requires one).
  */
  function Describe(attrs: Attrs): string
    requires Lookup(attrs, "id").Some?
  {
    Header(Lookup(attrs, "id").value) + ReprDict(attrs)
  }

  /** The part of `__str__()` before the attribute dict. */
  function Header(id: Value): string
  {
    "[" + ClassName + "] (" + Text(id) + ") "
  }

  /** The key the storage files an instance under: "<class>.<id>". */
  function StorageKey(attrs: Attrs): string
    requires Lookup(attrs, "id").Some?
  {
    ClassName + "." + Text(Lookup(attrs, "id").value)
  }

  /**
    The kwargs loop fails exactly when some argument cannot be converted, and
    then with the error of the first such argument; the attributes it started
    from play no part.
  */
  lemma {:induction false} ApplyKwargsFailure(attrs: Attrs, kwargs: Attrs)
    ensures ApplyKwargs(attrs, kwargs).Failure?
            <==> exists i :: 0 <= i < |kwargs| && !Accepted(kwargs[i])
    ensures ApplyKwargs(attrs, kwargs).Failure? ==>
              exists i :: 0 <= i < |kwargs|
                && Converted(kwargs[i].0, kwargs[i].1) == Failure(ApplyKwargs(attrs, kwargs).error)
                && forall j :: 0 <= j < i ==> Accepted(kwargs[j])
    decreases |kwargs|
  {
    if kwargs != [] {
      match Converted(kwargs[0].0, kwargs[0].1)
      case Failure(e) =>
        assert !Accepted(kwargs[0]);
      case Success(v) =>
        var rest := kwargs[1..];
        ApplyKwargsFailure(Put(attrs, kwargs[0].0, v), rest);
        if ApplyKwargs(attrs, kwargs).Failure? {
          var i :| 0 <= i < |rest| && Converted(rest[i].0, rest[i].1) == Failure(ApplyKwargs(attrs, kwargs).error)
                   && forall j :: 0 <= j < i ==> Accepted(rest[j]);
          assert kwargs[i + 1] == rest[i];
          assert forall j :: 0 <= j < i + 1 ==> Accepted(kwargs[j]) by {
            forall j | 0 <= j < i + 1 ensures Accepted(kwargs[j]) {
              if j > 0 { assert kwargs[j] == rest[j - 1]; }
            }
          }
        } else {
          forall i | 0 <= i < |kwargs| ensures Accepted(kwargs[i]) {
            if i > 0 { assert kwargs[i] == rest[i - 1]; }
          }
        }
    }
  }

  /**
    The keys after the kwargs loop: the keys that were there, in their places,
    then the new keys of the arguments in argument order; keys stay distinct.
  */
  lemma {:induction false} ApplyKwargsKeys(attrs: Attrs, kwargs: Attrs)
    requires ApplyKwargs(attrs, kwargs).Success?
    ensures Keys(ApplyKwargs(attrs, kwargs).value) == Keys(attrs) + NewKeys(Keys(kwargs), Keys(attrs))
    ensures DistinctKeys(attrs) ==> DistinctKeys(ApplyKwargs(attrs, kwargs).value)
    decreases |kwargs|
  {
    if kwargs != [] {
      var (k, v) := kwargs[0];
      var w := Converted(k, v).value;
      PutKeys(attrs, k, w);
      ApplyKwargsKeys(Put(attrs, k, w), kwargs[1..]);
      assert Keys(kwargs) == [k] + Keys(kwargs[1..]);
      if DistinctKeys(attrs) {
        PutDistinct(attrs, k, w);
      }
    }
  }

  /**
    After the kwargs loop every argument's key holds its converted value, and
    every key that is not an argument holds what it held before.
  */
  lemma {:induction false} ApplyKwargsLookup(attrs: Attrs, kwargs: Attrs)
    requires DistinctKeys(kwargs)
    requires ApplyKwargs(attrs, kwargs).Success?
    ensures forall i :: 0 <= i < |kwargs| ==>
              && Accepted(kwargs[i])
              && Lookup(ApplyKwargs(attrs, kwargs).value, kwargs[i].0)
                 == Some(Converted(kwargs[i].0, kwargs[i].1).value)
    ensures forall k :: k !in Keys(kwargs) ==>
              Lookup(ApplyKwargs(attrs, kwargs).value, k) == Lookup(attrs, k)
    decreases |kwargs|
  {
    if kwargs != [] {
      var (k, v) := kwargs[0];
      var w := Converted(k, v).value;
      var rest := kwargs[1..];
      var b := ApplyKwargs(attrs, kwargs).value;
      ApplyKwargsLookup(Put(attrs, k, w), rest);
      PutLookup(attrs, k, w);
      assert Keys(kwargs) == [k] + Keys(rest);
      assert k !in Keys(rest);
      forall i | 0 <= i < |kwargs|
        ensures Accepted(kwargs[i]) && Lookup(b, kwargs[i].0) == Some(Converted(kwargs[i].0, kwargs[i].1).value)
      {
        if i > 0 { assert kwargs[i] == rest[i - 1]; }
      }
    }
  }

  /**
    `BaseModel(**kwargs)` with a non-empty kwargs that it accepts: id,
    created_at and updated_at stay first and keep their fresh values unless an
    argument names them; every other argument, `__class__` included, is stored
    as given and appended in argument order; timestamp arguments are stored
    parsed.
  */
  lemma {:induction false} InitAttrs(kwargs: Attrs, id: string, createdAt: ValidDateTime, updatedAt: ValidDateTime)
    requires DistinctKeys(kwargs)
    requires Init(kwargs, id, createdAt, updatedAt).Success?
    ensures var b := Init(kwargs, id, createdAt, updatedAt).value;
      && WellFormed(b)
      && Keys(b) == ["id", "created_at", "updated_at"]
                    + NewKeys(Keys(kwargs), ["id", "created_at", "updated_at"])
      && ("id" !in Keys(kwargs) ==> Lookup(b, "id") == Some(Str(id)))
      && ("created_at" !in Keys(kwargs) ==> Lookup(b, "created_at") == Some(Time(createdAt)))
      && ("updated_at" !in Keys(kwargs) ==> Lookup(b, "updated_at") == Some(Time(updatedAt)))
      && (forall i :: 0 <= i < |kwargs| && !IsTimestampKey(kwargs[i].0) ==>
            Lookup(b, kwargs[i].0) == Some(kwargs[i].1))
      && (forall i :: 0 <= i < |kwargs| && IsTimestampKey(kwargs[i].0) ==>
            && kwargs[i].1.Str? && Parse(kwargs[i].1.s).Some?
            && Lookup(b, kwargs[i].0) == Some(Time(Parse(kwargs[i].1.s).value)))
  {
    var defaults := Defaults(id, createdAt, updatedAt);
    var b := Init(kwargs, id, createdAt, updatedAt).value;
    DefaultsFacts(id, createdAt, updatedAt);
    ApplyKwargsKeys(defaults, kwargs);
    assert Keys(b)[0] == "id" && Keys(b)[1] == "created_at" && Keys(b)[2] == "updated_at";
    ApplyKwargsLookup(defaults, kwargs);
  }

  /**
    `BaseModel(**kwargs)` fails exactly when an argument is named "self", or a
    created_at or updated_at argument is not a string that
    "%Y-%m-%dT%H:%M:%S.%f" matches.
  */
  lemma {:induction false} InitFailure(kwargs: Attrs, id: string, createdAt: ValidDateTime, updatedAt: ValidDateTime)
    ensures Init(kwargs, id, createdAt, updatedAt).Failure?
        <==> || "self" in Keys(kwargs)
             || exists i :: 0 <= i < |kwargs| && IsTimestampKey(kwargs[i].0)
                  && !(kwargs[i].1.Str? && Parse(kwargs[i].1.s).Some?)
  {
    ApplyKwargsFailure(Defaults(id, createdAt, updatedAt), kwargs);
  }

  /**
    Round trip: constructing from `to_dict()` gives back the same attributes,
    with `__class__` added as an ordinary attribute, and so the same
    `to_dict()` again, provided neither timestamp falls on a whole second.
  */
  lemma {:induction false} RoundTrip(attrs: Attrs, id: string, createdAt: ValidDateTime, updatedAt: ValidDateTime)
    requires WellFormed(attrs) && "self" !in Keys(attrs)
    requires TimeOf(attrs, "created_at").Some? && TimeOf(attrs, "created_at").value.microsecond != 0
    requires TimeOf(attrs, "updated_at").Some? && TimeOf(attrs, "updated_at").value.microsecond != 0
    ensures ToDictOf(attrs).Success?
    ensures Init(ToDictOf(attrs).value, id, createdAt, updatedAt)
            == Success(Put(attrs, "__class__", Str(ClassName)))
    ensures ToDictOf(Put(attrs, "__class__", Str(ClassName))) == ToDictOf(attrs)
  {
    var d := ToDictOf(attrs).value;
    var b2 := Put(attrs, "__class__", Str(ClassName));
    var defaults := Defaults(id, createdAt, updatedAt);
    ReservedKeysDistinct();
    PutKeys(attrs, "__class__", Str(ClassName));
    assert "self" !in Keys(d);
    RebuildAccepted(attrs);
    ApplyKwargsFailure(defaults, d);
    var b := ApplyKwargs(defaults, d).value;
    RebuildKeys(attrs, id, createdAt, updatedAt);
    RebuildLookup(attrs, id, createdAt, updatedAt);
    PutDistinct(attrs, "__class__", Str(ClassName));
    ApplyKwargsKeys(defaults, d);
    DefaultsFacts(id, createdAt, updatedAt);
    Extensional(b, b2);
    ToDictAgain(attrs);
  }

  /**
    Each entry of `to_dict()` converts back to the value the attributes hold
    under its key once `__class__` is added: the timestamps parse back to the
    datetimes they came from.
  */
  lemma {:induction false} RebuildEntry(attrs: Attrs, i: nat)
    requires WellFormed(attrs)
    requires TimeOf(attrs, "created_at").Some? && TimeOf(attrs, "created_at").value.microsecond != 0
    requires TimeOf(attrs, "updated_at").Some? && TimeOf(attrs, "updated_at").value.microsecond != 0
    requires i < |ToDictOf(attrs).value|
    ensures var d := ToDictOf(attrs).value;
      var b2 := Put(attrs, "__class__", Str(ClassName));
      Lookup(b2, d[i].0).Some? && Converted(d[i].0, d[i].1) == Success(Lookup(b2, d[i].0).value)
  {
    var d := ToDictOf(attrs).value;
    var k := d[i].0;
    LookupAt(d, i);
    PutLookup(attrs, "__class__", Str(ClassName));
    if IsTimestampKey(k) {
      ParseIsoFormat(TimeOf(attrs, k).value);
    }
  }

  /** Every entry of `to_dict()` is accepted back. */
  lemma {:induction false} RebuildAccepted(attrs: Attrs)
    requires WellFormed(attrs)
    requires TimeOf(attrs, "created_at").Some? && TimeOf(attrs, "created_at").value.microsecond != 0
    requires TimeOf(attrs, "updated_at").Some? && TimeOf(attrs, "updated_at").value.microsecond != 0
    ensures ToDictOf(attrs).Success?
    ensures var d := ToDictOf(attrs).value;
      forall i :: 0 <= i < |d| ==> Accepted(d[i])
  {
    var d := ToDictOf(attrs).value;
    forall i | 0 <= i < |d| ensures Accepted(d[i]) {
      RebuildEntry(attrs, i);
    }
  }

  /**
    The kwargs loop over arguments whose keys start with the keys already
    present, and are distinct, ends with exactly the arguments' keys.
  */
  lemma {:induction false} ApplyKwargsSameKeys(attrs: Attrs, kwargs: Attrs)
    requires ApplyKwargs(attrs, kwargs).Success?
    requires DistinctKeys(kwargs) && |attrs| <= |kwargs| && Keys(kwargs)[..|attrs|] == Keys(attrs)
    ensures Keys(ApplyKwargs(attrs, kwargs).value) == Keys(kwargs)
  {
    var ks, n := Keys(kwargs), |attrs|;
    DistinctKeyList(kwargs);
    NewKeysAfterPrefix(ks, n);
    ApplyKwargsKeys(attrs, kwargs);
  }

  /** Rebuilding from `to_dict()` gives the keys of the attributes with `__class__` added. */
  lemma {:induction false} RebuildKeys(attrs: Attrs, id: string, createdAt: ValidDateTime, updatedAt: ValidDateTime)
    requires WellFormed(attrs)
    requires TimeOf(attrs, "created_at").Some? && TimeOf(attrs, "updated_at").Some?
    requires ApplyKwargs(Defaults(id, createdAt, updatedAt), ToDictOf(attrs).value).Success?
    ensures Keys(ApplyKwargs(Defaults(id, createdAt, updatedAt), ToDictOf(attrs).value).value)
            == Keys(Put(attrs, "__class__", Str(ClassName)))
  {
    var d := ToDictOf(attrs).value;
    var defaults := Defaults(id, createdAt, updatedAt);
    DefaultsFacts(id, createdAt, updatedAt);
    calc {
      Keys(d)[..3];
      { assert |Keys(attrs)| >= 3; }
      Keys(attrs)[..3];
      ["id", "created_at", "updated_at"];
      Keys(defaults);
    }
    ApplyKwargsSameKeys(defaults, d);
    PutKeys(attrs, "__class__", Str(ClassName));
  }

  /** Rebuilding from `to_dict()` gives every key the value it had, `__class__` the class name. */
  lemma {:induction false} RebuildLookup(attrs: Attrs, id: string, createdAt: ValidDateTime, updatedAt: ValidDateTime)
    requires WellFormed(attrs)
    requires TimeOf(attrs, "created_at").Some? && TimeOf(attrs, "created_at").value.microsecond != 0
    requires TimeOf(attrs, "updated_at").Some? && TimeOf(attrs, "updated_at").value.microsecond != 0
    requires ApplyKwargs(Defaults(id, createdAt, updatedAt), ToDictOf(attrs).value).Success?
    ensures forall k :: Lookup(ApplyKwargs(Defaults(id, createdAt, updatedAt), ToDictOf(attrs).value).value, k)
                     == Lookup(Put(attrs, "__class__", Str(ClassName)), k)
  {
    forall k
      ensures Lookup(ApplyKwargs(Defaults(id, createdAt, updatedAt), ToDictOf(attrs).value).value, k)
              == Lookup(Put(attrs, "__class__", Str(ClassName)), k)
    {
      RebuildLookupAt(attrs, id, createdAt, updatedAt, k);
    }
  }

  lemma {:induction false} RebuildLookupAt(attrs: Attrs, id: string, createdAt: ValidDateTime, updatedAt: ValidDateTime, k: string)
    requires WellFormed(attrs)
    requires TimeOf(attrs, "created_at").Some? && TimeOf(attrs, "created_at").value.microsecond != 0
    requires TimeOf(attrs, "updated_at").Some? && TimeOf(attrs, "updated_at").value.microsecond != 0
    requires ApplyKwargs(Defaults(id, createdAt, updatedAt), ToDictOf(attrs).value).Success?
    ensures Lookup(ApplyKwargs(Defaults(id, createdAt, updatedAt), ToDictOf(attrs).value).value, k)
            == Lookup(Put(attrs, "__class__", Str(ClassName)), k)
  {
    var d := ToDictOf(attrs).value;
    var b := ApplyKwargs(Defaults(id, createdAt, updatedAt), d).value;
    if k in Keys(d) {
      var i := KeyIndex(d, k);
      RebuildEntry(attrs, i);
      ApplyKwargsLookup(Defaults(id, createdAt, updatedAt), d);
    } else {
      RebuildKeys(attrs, id, createdAt, updatedAt);
      PutKeys(attrs, "__class__", Str(ClassName));
      LookupPresent(b, k);
      LookupPresent(Put(attrs, "__class__", Str(ClassName)), k);
    }
  }

  /** Adding `__class__` as an attribute leaves `to_dict()` as it was. */
  lemma {:induction false} ToDictAgain(attrs: Attrs)
    requires TimeOf(attrs, "created_at").Some? && TimeOf(attrs, "updated_at").Some?
    ensures ToDictOf(Put(attrs, "__class__", Str(ClassName))) == ToDictOf(attrs)
  {
    var b2 := Put(attrs, "__class__", Str(ClassName));
    ReservedKeysDistinct();
    PutLookup(attrs, "__class__", Str(ClassName));
    assert TimeOf(b2, "created_at") == TimeOf(attrs, "created_at");
    assert TimeOf(b2, "updated_at") == TimeOf(attrs, "updated_at");
    PutTwice(attrs, "__class__", Str(ClassName));
  }

  /**
    Constructing from the `to_dict()` of an instance whose created_at or
    updated_at has microsecond 0 fails: `isoformat()` left out the fraction
    that the ".%f" of the parse format requires. The error names the first such
    timestamp.
  */
  lemma {:induction false} RoundTripWholeSecond(attrs: Attrs, id: string, createdAt: ValidDateTime, updatedAt: ValidDateTime)
    requires WellFormed(attrs) && "self" !in Keys(attrs)
    requires TimeOf(attrs, "created_at").Some? && TimeOf(attrs, "updated_at").Some?
    requires TimeOf(attrs, "created_at").value.microsecond == 0
             || TimeOf(attrs, "updated_at").value.microsecond == 0
    ensures ToDictOf(attrs).Success?
    ensures var created, updated := TimeOf(attrs, "created_at").value, TimeOf(attrs, "updated_at").value;
      Init(ToDictOf(attrs).value, id, createdAt, updatedAt)
      == Failure(if created.microsecond == 0 then BadTimestamp("created_at", IsoFormat(created, 'T'))
                 else BadTimestamp("updated_at", IsoFormat(updated, 'T')))
  {
    var created, updated := TimeOf(attrs, "created_at").value, TimeOf(attrs, "updated_at").value;
    var d := ToDictOf(attrs).value;
    ToDictHead(attrs);
    var defaults := Defaults(id, createdAt, updatedAt);
    var b1 := Put(defaults, "id", d[0].1);
    assert ApplyKwargs(defaults, d) == ApplyKwargs(b1, d[1..]);
    assert d[1..][0] == d[1] && d[1..][1..] == d[2..];
    if created.microsecond == 0 {
      ParseIsoFormatWholeSecond(created);
    } else {
      ParseIsoFormat(created);
      ParseIsoFormatWholeSecond(updated);
      var b2 := Put(b1, "created_at", Time(created));
      assert ApplyKwargs(b1, d[1..]) == ApplyKwargs(b2, d[2..]);
    }
  }

  /** `to_dict()` of well-formed attributes starts with the id and the two timestamp strings. */
  lemma {:induction false} ToDictHead(attrs: Attrs)
    requires WellFormed(attrs)
    requires TimeOf(attrs, "created_at").Some? && TimeOf(attrs, "updated_at").Some?
    ensures var d := ToDictOf(attrs).value;
      && |d| >= 3 && d[0].0 == "id"
      && d[1] == ("created_at", Str(IsoFormat(TimeOf(attrs, "created_at").value, 'T')))
      && d[2] == ("updated_at", Str(IsoFormat(TimeOf(attrs, "updated_at").value, 'T')))
      && ("self" !in Keys(attrs) ==> "self" !in Keys(d))
  {
    var d := ToDictOf(attrs).value;
    ReservedKeysDistinct();
    assert Keys(d)[..3] == Keys(attrs)[..3];
    LookupAt(d, 1);
    LookupAt(d, 2);
  }

  /**
    `save()` on the attributes: only updated_at changes, in place, to the new
    clock reading, and `to_dict()` then shows that reading.
  */
  lemma {:induction false} SaveEffect(attrs: Attrs, now: ValidDateTime)
    requires WellFormed(attrs)
    ensures var b := Put(attrs, "updated_at", Time(now));
      && WellFormed(b)
      && Keys(b) == Keys(attrs)
      && Lookup(b, "updated_at") == Some(Time(now))
      && (forall k :: k != "updated_at" ==> Lookup(b, k) == Lookup(attrs, k))
      && (ToDictOf(attrs).Success? ==>
            ToDictOf(b).Success? && Lookup(ToDictOf(b).value, "updated_at") == Some(Str(IsoFormat(now, 'T'))))
  {
    PutWellFormed(attrs, "updated_at", Time(now));
    PutKeys(attrs, "updated_at", Time(now));
    PutLookup(attrs, "updated_at", Time(now));
    LookupPresent(attrs, "updated_at");
    if ToDictOf(attrs).Success? {
      SaveShowsNow(attrs, now);
    }
  }

  lemma {:induction false} SaveShowsNow(attrs: Attrs, now: ValidDateTime)
    requires ToDictOf(attrs).Success?
    ensures var b := Put(attrs, "updated_at", Time(now));
      ToDictOf(b).Success? && Lookup(ToDictOf(b).value, "updated_at") == Some(Str(IsoFormat(now, 'T')))
  {
    var b := Put(attrs, "updated_at", Time(now));
    ReservedKeysDistinct();
    PutLookup(attrs, "updated_at", Time(now));
    assert TimeOf(b, "created_at") == TimeOf(attrs, "created_at");
    assert TimeOf(b, "updated_at") == Some(now);
  }

  /**
    With a clock that never goes back, `save()` keeps created_at no later than
    updated_at, and a reading later than the old updated_at moves it forward.
  */
  lemma {:induction false} SaveKeepsOrder(attrs: Attrs, now: ValidDateTime)
    requires WellFormed(attrs)
    requires TimeOf(attrs, "created_at").Some? && TimeOf(attrs, "updated_at").Some?
    requires NotAfter(TimeOf(attrs, "created_at").value, TimeOf(attrs, "updated_at").value)
    requires NotAfter(TimeOf(attrs, "updated_at").value, now)
    ensures var b := Put(attrs, "updated_at", Time(now));
      && TimeOf(b, "created_at") == TimeOf(attrs, "created_at")
      && TimeOf(b, "updated_at") == Some(now)
      && NotAfter(TimeOf(b, "created_at").value, now)
  {
    SaveEffect(attrs, now);
    NotAfterTransitive(TimeOf(attrs, "created_at").value, TimeOf(attrs, "updated_at").value, now);
  }

  /**
    `__str__()` shows the attributes in insertion order: the string before and
    the string after a new attribute is set share everything up to the
    closing brace, and the new one goes on with the new entry.
  */
  lemma {:induction false} DescribePutNew(attrs: Attrs, k: string, v: Value)
    requires Lookup(attrs, "id").Some? && k !in Keys(attrs)
    ensures Lookup(Put(attrs, k, v), "id") == Lookup(attrs, "id")
    ensures var p := Header(Lookup(attrs, "id").value) + "{" + Entries(attrs);
      && Describe(attrs) == p + "}"
      && Describe(Put(attrs, k, v)) == p + ", " + Entry((k, v)) + "}"
  {
    LookupPresent(attrs, "id");
    PutLookup(attrs, k, v);
    PutAppends(attrs, k, v);
    EntriesAppend(attrs, (k, v));
    DictLayout(Header(Lookup(attrs, "id").value), Entries(attrs), Entry((k, v)));
  }

  /** Regrouping the pieces of a rendered dict. */
  lemma DictLayout(head: string, entries: string, entry: string)
    ensures head + ("{" + entries + "}") == head + "{" + entries + "}"
    ensures head + ("{" + (entries + ", " + entry) + "}") == head + "{" + entries + ", " + entry + "}"
  {
  }
}
