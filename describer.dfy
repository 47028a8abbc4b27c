/** The document describer: the kind of a whole document and, for an object
    or an array, a tally of the kinds of its immediate members. */
module Describer {
  import opened Json
  import opened Tally

  /** The kind of an element and, for a container, the counts of its
      members' kinds. */
  datatype JsonDescription = JsonDescription(element: string, members: map<string, nat>)

  /** The description Describe starts from and returns on invalid input. */
  function NewJsonDescription(): (d: JsonDescription)
    ensures d.element !in Kinds
    ensures forall t :: Count(d.members, t) == 0
  {
    JsonDescription("undefined", map[])
  }

  /** The keys among `keys` whose value in `obj` has kind `t`. */
  function KeysOfKind(lib: Decoder, obj: RawObject, keys: set<string>, t: string): (ks: set<string>)
    requires keys <= obj.Keys
  {
    set k | k in keys && KindOf(lib, obj[k]) == t
  }

  /** The positions below `n` whose element in `arr` has kind `t`. */
  function IndicesOfKind(lib: Decoder, arr: RawArray, n: nat, t: string): (ixs: set<nat>)
    requires n <= |arr|
  {
    set i: nat | i < n && KindOf(lib, arr[i]) == t
  }

  /** Every count in `members` is the number of keys among `keys` whose
      value has that kind. */
  ghost predicate CountsKeys(lib: Decoder, obj: RawObject, keys: set<string>, members: map<string, nat>)
    requires keys <= obj.Keys
  {
    forall t :: Count(members, t) == |KeysOfKind(lib, obj, keys, t)|
  }

  /** `members` is the tally of the object's members by kind. */
  ghost predicate TalliesObject(lib: Decoder, obj: RawObject, members: map<string, nat>) {
    && (forall t :: t in members ==> members[t] > 0)
    && CountsKeys(lib, obj, obj.Keys, members)
    && Total(members) == |obj|
  }

  /** `members` is the tally of the array's elements by kind. */
  ghost predicate TalliesArray(lib: Decoder, arr: RawArray, members: map<string, nat>) {
    && (forall t :: t in members ==> members[t] > 0)
    && (forall t :: Count(members, t) == |IndicesOfKind(lib, arr, |arr|, t)|)
    && Total(members) == |arr|
  }

  /** Counting one more object member of kind KindOf(obj[k]). */
  lemma KeysOfKindStep(lib: Decoder, obj: RawObject, done: set<string>, k: string, t: string)
    requires done <= obj.Keys && k in obj && k !in done
    ensures |KeysOfKind(lib, obj, done + {k}, t)|
         == |KeysOfKind(lib, obj, done, t)| + (if KindOf(lib, obj[k]) == t then 1 else 0)
  {
    if KindOf(lib, obj[k]) == t {
      assert KeysOfKind(lib, obj, done + {k}, t) == KeysOfKind(lib, obj, done, t) + {k};
    } else {
      assert KeysOfKind(lib, obj, done + {k}, t) == KeysOfKind(lib, obj, done, t);
    }
  }

  /** Counting one more array element of kind KindOf(arr[i]). */
  lemma IndicesOfKindStep(lib: Decoder, arr: RawArray, i: nat, t: string)
    requires i < |arr|
    ensures |IndicesOfKind(lib, arr, i + 1, t)|
         == |IndicesOfKind(lib, arr, i, t)| + (if KindOf(lib, arr[i]) == t then 1 else 0)
  {
    if KindOf(lib, arr[i]) == t {
      assert IndicesOfKind(lib, arr, i + 1, t) == IndicesOfKind(lib, arr, i, t) + {i};
    } else {
      assert IndicesOfKind(lib, arr, i + 1, t) == IndicesOfKind(lib, arr, i, t);
    }
  }

  /** What the object loop keeps after visiting the keys in `done`, with the
      keys in `todo` still to visit. */
  ghost predicate TallyingObject(lib: Decoder, jo: RawObject, todo: set<string>, done: set<string>,
                                 members: map<string, nat>) {
    && done <= jo.Keys && todo == jo.Keys - done
    && (forall t :: t in members ==> members[t] > 0)
    && CountsKeys(lib, jo, done, members)
    && Total(members) == |done|
  }

  /** One round of the object loop: visiting key `k` bumps the count of its
      kind and keeps the loop's invariant. */
  lemma TallyObjectStep(lib: Decoder, jo: RawObject, todo: set<string>, done: set<string>,
                        members: map<string, nat>, k: string)
    requires TallyingObject(lib, jo, todo, done, members) && k in todo
    ensures TallyingObject(lib, jo, todo - {k}, done + {k}, Bump(members, KindOf(lib, jo[k])))
  {
    assert todo - {k} == jo.Keys - (done + {k});
    assert |done + {k}| == |done| + 1;
    CountsKeysStep(lib, jo, done, k, members);
    TotalBump(members, KindOf(lib, jo[k]));
  }

  /** Counting member `k` under its kind keeps every count exact. */
  lemma CountsKeysStep(lib: Decoder, jo: RawObject, done: set<string>, k: string, members: map<string, nat>)
    requires done <= jo.Keys && k in jo && k !in done
    requires CountsKeys(lib, jo, done, members)
    ensures CountsKeys(lib, jo, done + {k}, Bump(members, KindOf(lib, jo[k])))
  {
    var bumped := Bump(members, KindOf(lib, jo[k]));
    forall t ensures Count(bumped, t) == |KeysOfKind(lib, jo, done + {k}, t)| {
      KeysOfKindStep(lib, jo, done, k, t);
    }
  }

  /** Before the first round nothing is counted; after the last one every
      member is. */
  lemma TallyObjectBounds(lib: Decoder, jo: RawObject, members: map<string, nat>)
    ensures TallyingObject(lib, jo, jo.Keys, {}, map[])
    ensures TallyingObject(lib, jo, {}, jo.Keys, members) ==> TalliesObject(lib, jo, members)
  {
    forall t ensures Count(map[], t) == |KeysOfKind(lib, jo, {}, t)| {
      assert KeysOfKind(lib, jo, {}, t) == {};
    }
  }

  /** The object loop of Describe: one increment per member, under the
      member's kind. */
  method TallyObject(lib: Decoder, jo: RawObject) returns (members: map<string, nat>)
    ensures TalliesObject(lib, jo, members)
  {
    members := map[];
    var todo := jo.Keys;
    ghost var done: set<string> := {};
    TallyObjectBounds(lib, jo, members);
    while todo != {}
      invariant TallyingObject(lib, jo, todo, done, members)
      decreases |todo|
    {
      var k :| k in todo;
      TallyObjectStep(lib, jo, todo, done, members, k);
      var et := KindOf(lib, jo[k]);
      members := Bump(members, et);
      todo, done := todo - {k}, done + {k};
    }
    assert done == jo.Keys;
    TallyObjectBounds(lib, jo, members);
  }

  /** The array loop of Describe: one increment per element, under the
      element's kind. */
  method TallyArray(lib: Decoder, ja: RawArray) returns (members: map<string, nat>)
    ensures TalliesArray(lib, ja, members)
  {
    members := map[];
    for i := 0 to |ja|
      invariant forall t :: t in members ==> members[t] > 0
      invariant forall t :: Count(members, t) == |IndicesOfKind(lib, ja, i, t)|
      invariant Total(members) == i
    {
      var et := KindOf(lib, ja[i]);
      TotalBump(members, et);
      forall t ensures Count(Bump(members, et), t) == |IndicesOfKind(lib, ja, i + 1, t)| {
        IndicesOfKindStep(lib, ja, i, t);
      }
      members := Bump(members, et);
    }
  }

  /** Classifies the document and tallies the kinds of a container's
      immediate members; an invalid document yields the error and the
      untouched default description. */
  method Describe(lib: Decoder, data: Bytes) returns (descr: JsonDescription, err: Option<Error>)
    ensures err.Some? <==> !lib.valid(data)
    ensures err.Some? ==> err.value == NotValidJson && descr == NewJsonDescription()
    ensures err.None? ==> TypeOf(lib, data) == Ok(descr.element)
    ensures descr.element == "object" ==> TalliesObject(lib, lib.unmarshalObject(data), descr.members)
    ensures descr.element == "array" ==> TalliesArray(lib, lib.unmarshalArray(data), descr.members)
    ensures descr.element != "object" && descr.element != "array" ==> descr.members == map[]
  {
    descr := NewJsonDescription();
    var jt := TypeOf(lib, data);
    if jt.Err? {
      return descr, Some(jt.error);
    }
    var element := jt.value;
    var members: map<string, nat> := map[];
    if element == "object" {
      members := TallyObject(lib, lib.unmarshalObject(data));
    }
    if element == "array" {
      members := TallyArray(lib, lib.unmarshalArray(data));
    }
    descr := JsonDescription(element, members);
    err := None;
  }
}
