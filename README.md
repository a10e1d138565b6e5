# BaseModel of the AirBnB clone, in Dafny

This project models `BaseModel`, the parent class of every model in the
AirBnB clone (models/base_model.py), and proves what it promises.

A `BaseModel` instance is an open attribute bag: a Python `__dict__`, kept in
insertion order. `__init__` fills it in one of two ways:

- With no keyword arguments, it sets a fresh id and two clock readings, then
  registers the object with the storage singleton.
- With keyword arguments, it sets the same defaults, then writes each
  argument over them in order. `created_at` and `updated_at` arguments are
  parsed with `strptime(v, "%Y-%m-%dT%H:%M:%S.%f")`. Every other argument is
  stored as given, `__class__` included.

The other methods:

- `save()` sets `updated_at` to the clock and flushes the storage.
- `to_dict()` copies the bag, sets `__class__`, and writes the two timestamps
  as `isoformat()` strings.
- `__str__()` renders `[BaseModel] (<id>) <repr of the bag>`.

Modules, one file each:

| file | module | what it holds |
|---|---|---|
| wrappers.dfy | `Wrappers` | `Option` and `Result` |
| digits.dfy | `Digits` | digit strings, `str(int)`, zero padding |
| date_times.dfy | `DateTimes` | naive datetimes; their order, `isoformat()`, `repr()` and `strptime` for the one format used |
| values.dfy | `Values` | the attribute values (`Str`, `Int`, `Bool`, `NoneValue`, `Time`); Python's `str()` and `repr()` of values, strings and dicts |
| attr_bag.dfy | `AttrBag` | an insertion-ordered dict: assigning to a present key replaces it in place, a new key is appended |
| records.dfy | `Records` | the steps as functions on the bag: defaults, the kwargs loop, `to_dict()`, `__str__()`, the storage key; the lemmas about them |
| models.dfy | `Models` | class `BaseModel`, whose methods update its `attrs` field in place, and class `FileStorage`, the part of the storage singleton that `BaseModel` uses |

`uuid4()` and `datetime.now()` are parameters. `Create` takes the id and the
two clock readings. `Save` takes the reading `now`.

Construction can raise, so `BaseModel.Create` returns a `Result`. The error
cases are:

- a keyword named `self` (a `TypeError` in Python);
- a timestamp argument that is not a string;
- a timestamp argument that does not match the format.

`to_dict()` fails when a timestamp attribute is not a datetime. This can
happen after a caller assigns one from outside.

Python's `isoformat()` leaves out `.ffffff` when the microsecond is zero. The
`%f` of the parse format then does not match. So the round trip
"construct from `to_dict()`" holds when no attribute is named `self` and
neither timestamp falls on a whole second. When no attribute is named `self`
but a timestamp does fall on a whole second, construction fails with
`BadTimestamp`, and the model proves that too. An attribute named `self`
makes construction fail with `ArgumentClash` before anything else.

## Model

| member | source | states |
|---|---|---|
| Models.BaseModel.constructor | models/base_model.py:20-22 | the bag holds exactly id, created_at, updated_at, in that order, with the id and the two readings given, and is well formed |
| Models.BaseModel.Create | models/base_model.py:11-30 | the loop over the kwargs ends with the attributes `Init` specifies, or fails with `Init`'s error and yields no object; with no kwargs the object holds the defaults and the two readings in order, and is filed once, as itself, under "BaseModel.<id>"; in every other case the storage is left alone |
| Models.BaseModel.Save | models/base_model.py:36-39 | updated_at is replaced in place by `now`; the key order and every other attribute stay the same; the storage keeps what it files, and its flushed image then equals `to_dict()` of each filed object |
| Models.FileStorage.New | tests/test_models/test_engine/test_file_storage.py:39-43 | the very object is filed under "BaseModel.<id>"; nothing else changes |
| Models.FileStorage.Save | tests/test_models/test_engine/test_file_storage.py:44-49 | after a flush, the image holds `to_dict()` of each filed object under its key; what is filed does not change |
| Records.DefaultsFacts | models/base_model.py:20-22 | the defaults are well formed, have keys id, created_at, updated_at in that order, and look up to the id and the two readings |
| Records.PutWellFormed | models/base_model.py:28 | assigning any attribute keeps the keys distinct and id, created_at, updated_at first; the id entry changes only when the key is "id" |
| Records.ApplyKwargsFailure | models/base_model.py:24-28 | the kwargs loop fails exactly when some argument cannot be converted, and then with the error of such an argument |
| Records.ApplyKwargsKeys | models/base_model.py:24-28 | after the loop, the keys present before keep their places and the arguments' new keys follow in argument order; distinct keys stay distinct |
| Records.ApplyKwargsLookup | models/base_model.py:24-28 | after the loop, every argument's key holds its converted value, and every other key holds what it held |
| Records.InitAttrs | models/base_model.py:20-28 | with accepted kwargs: the result is well formed; id, created_at, updated_at stay first; the other keys are appended in argument order; defaults survive unless overridden; non-timestamp arguments, `__class__` included, are stored verbatim; timestamp arguments are stored parsed |
| Records.InitFailure | models/base_model.py:23-26 | construction fails exactly when an argument is named "self", or a created_at/updated_at argument is not a string that the format matches |
| Records.ToDictOf | models/base_model.py:41-47 | `to_dict()` fails when created_at (checked first) or updated_at is not a datetime, and succeeds otherwise; its keys are the bag's keys, plus `__class__` at the end when new; `__class__` maps to "BaseModel", each timestamp to its `isoformat()` string, every other key to the bag's value; distinct keys stay distinct |
| Records.ToDictAgain | models/base_model.py:43-44 | a bag that already holds `__class__ = "BaseModel"` has the same `to_dict()` as one without it |
| Records.RoundTrip | models/base_model.py:24-28 | when no attribute is named `self` and neither timestamp falls on a whole second, construction from `to_dict()` succeeds with the original bag plus `__class__`, and that object's `to_dict()` equals the original's |
| Records.RoundTripWholeSecond | models/base_model.py:26 | when no attribute is named `self` and a timestamp's microsecond is zero, construction from `to_dict()` fails with `BadTimestamp`, naming the first such timestamp and its text |
| Records.SaveEffect | models/base_model.py:38 | the assignment in `save()` keeps the bag well formed and its key order, sets updated_at to `now`, changes no other key, and `to_dict()` then shows `now.isoformat()` |
| Records.SaveKeepsOrder | models/base_model.py:38 | with a clock that never goes back, created_at stays no later than updated_at after `save()` |
| Records.DescribePutNew | models/base_model.py:34 | `__str__()` renders the bag in insertion order: setting a new attribute keeps the text up to the closing brace and adds ", 'key': value" before it |
| Values.ReprStrRoundTrip | models/base_model.py:34 | `repr()` of a string is a quoted literal whose inside reads back as that string, so distinct values render distinctly |
| Values.ReprDictPutNew | models/base_model.py:34 | `repr()` of a dict with a new key appended is the old rendering, then ", ", then the new entry |
| Digits.PaddedDenotes | models/base_model.py:45-46 | each zero-padded field of `isoformat()` has exactly its width in digits and reads back as the field |
| Digits.IntTextDenotes | models/base_model.py:34 | `str()` of an integer is a minus sign exactly for negatives, followed by digits that read back as its magnitude |
| DateTimes.ParseIsoFormat | models/base_model.py:26 | `strptime` with the format gives back every datetime whose `isoformat()` it reads, when the microsecond is not zero |
| DateTimes.ParseIsoFormatWholeSecond | models/base_model.py:26 | `strptime` with the format rejects the `isoformat()` of every datetime whose microsecond is zero |
| DateTimes.NotAfterTransitive | models/base_model.py:21-22 | the order of clock readings is transitive |
| DateTimes.NotAfterAntisymmetric | models/base_model.py:21-22 | two readings that are each no later than the other are the same datetime |
| DateTimes.NotAfterReflexive | models/base_model.py:21-22 | every reading is no later than itself |
| Records.FreshTimestamps | tests/test_models/test_base_model.py:40-41 | with a clock that never goes back, a fresh instance's created_at is no later than its updated_at, and the two are equal exactly when the second reading is no later than the first |
| Records.ApplyKwargs | models/base_model.py:24-28 | the kwargs loop as a function; its properties are stated by Records.ApplyKwargsFailure, Records.ApplyKwargsKeys and Records.ApplyKwargsLookup, and `Models.BaseModel.Create`'s loop is proved equal to it |
| Records.Init | models/base_model.py:20-28 | the attributes `__init__` ends with, or its error; its properties are stated by Records.InitAttrs, Records.InitFailure, Records.RoundTrip and Records.RoundTripWholeSecond |
| Models.BaseModel.ToDict | models/base_model.py:41-47 | `to_dict()` of the instance, reading its attributes and changing nothing; its properties are stated by Records.ToDictOf, Records.ToDictAgain and Records.SaveEffect |
| Records.Describe | models/base_model.py:32-34 | `__str__()` of a bag: the class name, the `id` attribute and the dict's `repr()`; its properties are stated by Records.DescribePutNew, Values.ReprDictPutNew and Values.ReprStrRoundTrip |
| Models.BaseModel.ToString | models/base_model.py:32-34 | `__str__()` of the instance, which is Records.Describe of its attributes |
| Records.StorageKey | tests/test_models/test_engine/test_file_storage.py:41 | "BaseModel.<id>", the key under which storage files an instance; `Models.BaseModel.Create` and `Models.FileStorage.New` state where an object is filed with it |
| DateTimes.IsoFormat | models/base_model.py:45-46 | `isoformat()`; its properties are stated by Digits.PaddedDenotes, DateTimes.ParseIsoFormat and DateTimes.ParseIsoFormatWholeSecond |
| DateTimes.ReprDateTimeFields | models/base_model.py:34 | `repr()` of a datetime joins a prefix of its seven fields: year to minute always, then the second and the microsecond only up to the last one that is not zero; every field left out is zero |
| DateTimes.ReprDateTime | models/base_model.py:34 | `repr()` of a datetime, as the `__dict__` rendering shows created_at and updated_at; its properties are stated by DateTimes.ReprDateTimeFields |
| Values.Text | models/base_model.py:34 | `str()` of a value, as the f-string shows the id; its properties are stated by Digits.IntTextDenotes for integers, and for datetimes by the lemmas about DateTimes.IsoFormat, which `str()` of a datetime uses with a space separator |
| Values.ReprStr | models/base_model.py:34 | `repr()` of a string; its properties are stated by Values.ReprStrRoundTrip |
| Values.ReprDict | models/base_model.py:34 | `repr()` of the attribute dict, entries in insertion order; its properties are stated by Values.ReprDictPutNew and Records.DescribePutNew |
| AttrBag.Put | models/base_model.py:28 | `d[k] = v` on an insertion-ordered dict, as every assignment into the attributes does; its properties are stated by AttrBag.PutKeys, AttrBag.PutLookup, AttrBag.PutInPlace, AttrBag.PutAppends and AttrBag.PutDistinct |
| AttrBag.Lookup | models/base_model.py:34 | reading an attribute such as `self.id`, or `None` when there is none; its properties are stated by AttrBag.LookupPresent, AttrBag.LookupAt and AttrBag.PutLookup |
| Records.Defaults | models/base_model.py:20-22 | the three first assignments of `__init__`; its properties are stated by Records.DefaultsFacts and Records.FreshTimestamps |
| Records.Converted | models/base_model.py:25-28 | what one keyword argument stores: a parsed timestamp, `NotAString` or `BadTimestamp` for created_at and updated_at, the value itself for any other key; its properties are stated by Records.InitFailure, Records.ApplyKwargsFailure and Records.ApplyKwargsLookup |
| Values.Repr | models/base_model.py:34 | `repr()` of each attribute value in the dict rendering; strings go through Values.ReprStr (Values.ReprStrRoundTrip), datetimes through DateTimes.ReprDateTime (DateTimes.ReprDateTimeFields), integers, booleans and `None` through Values.Text |
| Digits.IntText | models/base_model.py:34 | `str()` of an integer; its properties are stated by Digits.IntTextDenotes |
| DateTimes.Parse | models/base_model.py:26 | `strptime(v, "%Y-%m-%dT%H:%M:%S.%f")`, `None` where Python raises ValueError; its properties are stated by DateTimes.ParseIsoFormat and DateTimes.ParseIsoFormatWholeSecond |
| AttrBag.PutKeys | models/base_model.py:28 | `d[k] = v` keeps the key order and appends `k` when it is new |
| AttrBag.PutLookup | models/base_model.py:28 | after `d[k] = v`, `k` holds `v` and every other key holds what it held |
| AttrBag.PutInPlace | models/base_model.py:28 | assigning to a present key replaces that entry where it stands |
| AttrBag.PutAppends | models/base_model.py:28 | assigning to a new key appends the entry at the end |
| AttrBag.PutDistinct | models/base_model.py:28 | assignment never duplicates a key |

## Left out

- console.py: an interactive command loop whose handlers return constants. It touches nothing modelled here.
- The storage engine's file (models/engine/file_storage.py) is not part of this model. `FileStorage` keeps only the map of filed objects and a ghost image holding `to_dict()` of each filed object, by key, as of the last flush. The JSON file I/O, `all()` and `reload()` are left out.
- Models.FileStorage.Save: a filed object whose `to_dict()` fails is recorded in the image as that `Failure`, and the flush returns normally. A flush that serialises `to_dict()` would raise there instead. The storage engine's file is not part of this model, so neither that error nor what the file holds afterwards is modelled.
- Models.BaseModel.Save: always returns normally. In Python, an error raised by the flush would propagate out of `save()` after updated_at had already been assigned (models/base_model.py:38-39). The model keeps the assignment and records the failing `to_dict()` in the image, as the line above says.
- `uuid4()` and `datetime.now()` are inputs. The model does not claim ids are unique, since that is probabilistic. It does not claim that created_at equals updated_at either: the two readings come from separate clock calls, and Records.FreshTimestamps states when they are equal.
- `*args` of `__init__` is ignored by the source and has no counterpart here.
- Values: only strings, integers, booleans, `None` and datetimes. Floats, lists, dicts and other objects that callers may assign are left out.
- `strptime` accepts only ASCII digits here. Python's `\d` also matches other Unicode decimal digits.
- `repr()` of strings escapes the C0 and C1 controls, DEL, the no-break space and the soft hyphen. Other characters that Python's `str.isprintable()` rejects above U+00FF are shown as themselves.
- Attributes set from outside the class (`obj.name = ...`) are not operations of the model. Their effect on the bag is `Put`, which `AttrBag` covers. Deleting an attribute is left out.
- Python reflection (`__dict__`, `__class__.__name__`) is replaced by the `attrs` field and the constant `ClassName`. Subclasses are not modelled.
- Models.BaseModel.Create: requires distinct keyword names. Python guarantees this for `**kwargs`, so it is a property of the input type rather than a demand on callers.
- Models.BaseModel.ToString: requires an `id` attribute, as do Records.Describe, Records.StorageKey and Models.FileStorage.New. Reading `self.id` without one raises AttributeError in Python, and every instance the model can build has one.
- Records.DescribePutNew: states how the rendering grows with the bag, not the full literal text for a freshly built instance.
- Digits.IntText: renders integers of any size. CPython raises ValueError for `str()` or `repr()` of an integer with more than 4300 digits, the default of `sys.get_int_max_str_digits()`. The model does not include that limit.
- Records.Describe: never fails for an integer attribute, because Digits.IntText has no digit limit. In CPython, `__str__()` raises ValueError when an attribute holds an integer of more than 4300 digits.
- Records.StorageKey: likewise renders an integer id of any size. In CPython the "<class>.<id>" f-string would raise ValueError for such an id.
- DateTimes.ReprDateTime: the `fold` attribute of Python datetimes is not modelled. `datetime.now()` returns `fold=1` for a local reading taken in the repeated hour after a daylight-saving fall-back, and `repr()` then ends with ", fold=1". The model never renders that suffix, so Records.Describe shows such a timestamp without it.
- DateTimes.ReprDateTimeFields: states the rendering for a datetime with fold 0 only, since the model's datetimes carry no fold. `isoformat()` and `strptime` drop the fold as well. So an object rebuilt from `to_dict()` has fold 0, and its `__str__()` can differ from the original's where the original's fold was 1.
- Timezones are left out. All datetimes here are naive, as `datetime.now()` returns them.
