/**
  The objects: `BaseModel` instances, whose attribute dict `__init__` and
  `save()` change in place, and the storage singleton they register with and
  flush. The storage engine's own file is not part of this model; it is kept
  abstract as a map from "<class>.<id>" to the very object filed there, and
  what its last flush wrote.
*/
module Models {
  import opened Wrappers
  import opened DateTimes
  import opened AttrBag
  import opened Values
  import opened Records

  class BaseModel {
    /** The instance `__dict__`, in insertion order. */
    var attrs: Attrs

    ghost predicate Valid()
      reads this
    {
      WellFormed(attrs)
    }

    /**
      The first three assignments of `__init__`: the id `str(uuid4())` gave,
      then the two readings of `datetime.now()`, in that order.
    */
    constructor (id: string, createdAt: ValidDateTime, updatedAt: ValidDateTime)
      ensures attrs == Defaults(id, createdAt, updatedAt)
      ensures Valid()
    {
      attrs := [("id", Str(id))];
      new;
      ReservedKeysDistinct();
      PutAppends(attrs, "created_at", Time(createdAt));
      attrs := Put(attrs, "created_at", Time(createdAt));
      PutAppends(attrs, "updated_at", Time(updatedAt));
      attrs := Put(attrs, "updated_at", Time(updatedAt));
      DefaultsFacts(id, createdAt, updatedAt);
    }

    /**
      `BaseModel(**kwargs)`, given the id and the two clock readings it takes.
      With no kwargs the new object has only its defaults, holding the two
      readings in the order they were taken, and is filed in the storage under
      "BaseModel.<id>"; otherwise the arguments are written in over the
      defaults one by one and the storage is left alone. A failing argument
      ends construction with its error and no object.
    */
    static method Create(kwargs: Attrs, id: string, createdAt: ValidDateTime, updatedAt: ValidDateTime,
                         storage: FileStorage)
      returns (r: Result<BaseModel, Error>)
      requires DistinctKeys(kwargs)
      modifies storage
      ensures Init(kwargs, id, createdAt, updatedAt).Failure? ==>
                r == Failure(Init(kwargs, id, createdAt, updatedAt).error)
      ensures Init(kwargs, id, createdAt, updatedAt).Success? ==>
                && r.Success? && fresh(r.value)
                && r.value.attrs == Init(kwargs, id, createdAt, updatedAt).value
                && r.value.Valid()
      ensures r.Success? && kwargs == [] ==>
                && r.value.attrs == Defaults(id, createdAt, updatedAt)
                && TimeOf(r.value.attrs, "created_at") == Some(createdAt)
                && TimeOf(r.value.attrs, "updated_at") == Some(updatedAt)
                && storage.objects == old(storage.objects)[ClassName + "." + id := r.value]
      ensures !(r.Success? && kwargs == []) ==> storage.objects == old(storage.objects)
      ensures storage.image == old(storage.image)
    {
      if "self" in Keys(kwargs) {
        return Failure(ArgumentClash);
      }
      var o := new BaseModel(id, createdAt, updatedAt);
      DefaultsFacts(id, createdAt, updatedAt);
      if |kwargs| != 0 {
        var i := 0;
        while i < |kwargs|
          invariant 0 <= i <= |kwargs|
          invariant ApplyKwargs(o.attrs, kwargs[i..]) == Init(kwargs, id, createdAt, updatedAt)
          modifies o
        {
          var (k, v) := kwargs[i];
          assert kwargs[i..][0] == kwargs[i] && kwargs[i..][1..] == kwargs[i + 1..];
          if k == "created_at" || k == "updated_at" {
            if !v.Str? {
              return Failure(NotAString(k));
            }
            var t := Parse(v.s);
            if t.None? {
              return Failure(BadTimestamp(k, v.s));
            }
            o.attrs := Put(o.attrs, k, Time(t.value));
          } else {
            o.attrs := Put(o.attrs, k, v);
          }
          i := i + 1;
        }
        InitAttrs(kwargs, id, createdAt, updatedAt);
      } else {
        storage.New(o);
      }
      return Success(o);
    }

    /** `to_dict()`: it reads the attributes and changes nothing. */
    function ToDict(): Result<Attrs, Error>
      reads this
    {
      ToDictOf(attrs)
    }

    /** `__str__()` */
    function ToString(): string
      reads this
      requires Lookup(attrs, "id").Some?
    {
      Describe(attrs)
    }

    /**
      `save()`: updated_at becomes the clock reading `now`, where it stands,
      every other attribute is kept, and then the storage is flushed; what it
      files is not changed.
    */
    method Save(now: ValidDateTime, storage: FileStorage)
      requires Valid()
      modifies this, storage
      ensures attrs == Put(old(attrs), "updated_at", Time(now))
      ensures Valid() && Keys(attrs) == Keys(old(attrs))
      ensures forall k :: k != "updated_at" ==> Lookup(attrs, k) == Lookup(old(attrs), k)
      ensures storage.objects == old(storage.objects)
      ensures storage.Flushed()
    {
      SaveEffect(attrs, now);
      attrs := Put(attrs, "updated_at", Time(now));
      storage.Save();
    }
  }

  /** The storage singleton, as far as `BaseModel` uses it. */
  class FileStorage {
    /** The objects filed, by "<class>.<id>". */
    var objects: map<string, BaseModel>
    /** What the last flush wrote: `to_dict()` of each object filed, by key. */
    ghost var image: map<string, Result<Attrs, Error>>

    /** The last flush wrote what the filed objects show now. */
    ghost predicate Flushed()
      reads this, objects.Values
    {
      image == map k | k in objects :: objects[k].ToDict()
    }

    constructor ()
      ensures objects == map[] && image == map[]
      ensures Flushed()
    {
      objects := map[];
      image := map[];
    }

    /** `new(obj)`: files the object itself under "<class>.<id>". */
    method New(obj: BaseModel)
      requires Lookup(obj.attrs, "id").Some?
      modifies this
      ensures objects == old(objects)[StorageKey(obj.attrs) := obj]
      ensures obj in objects.Values
      ensures image == old(image)
    {
      objects := objects[StorageKey(obj.attrs) := obj];
      assert objects[StorageKey(obj.attrs)] == obj;
    }

    /** `save()`: a flush of `to_dict()` of every object filed. */
    method Save()
      modifies this
      ensures objects == old(objects)
      ensures Flushed()
    {
      image := map k | k in objects :: objects[k].ToDict();
    }
  }
}
