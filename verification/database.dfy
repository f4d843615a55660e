/**
 * The ObjectId serialiser of `app/utils/database.py`: a database document
 * loses its `_id` key to an `id` string, and ObjectId values at the top level
 * and inside top-level lists become their hexadecimal strings. A document is
 * an ordered object, so the position of `id` is modelled too.
 */
module Database {
  import opened Text
  import opened Values

  type Document = seq<(string, Value)>

  /** `str(v) if isinstance(v, ObjectId) else v`. */
  function ItemString(v: Value): (r: Value)
    ensures !r.ObjectId?
    ensures Render(r) == Render(v)
    ensures !v.ObjectId? ==> r == v
  {
    if v.ObjectId? then Str(v.hex) else v
  }

  /** A value the serialiser leaves alone: no ObjectId, and no ObjectId directly inside a list. */
  predicate Plain(v: Value) {
    && !v.ObjectId?
    && (v.List? ==> forall i :: 0 <= i < |v.items| ==> !v.items[i].ObjectId?)
  }

  /**
   * The loop body's conversion of one value: an ObjectId becomes its string,
   * a list has its ObjectId items converted, anything else (a nested object
   * included) is kept as it is.
   */
  function Converted(v: Value): (r: Value)
    ensures Plain(r)
    ensures Plain(v) ==> r == v
    ensures v.List? ==> r.List? && |r.items| == |v.items|
    ensures v.List? ==> forall i :: 0 <= i < |v.items| ==>
      Render(r.items[i]) == Render(v.items[i]) && (!v.items[i].ObjectId? ==> r.items[i] == v.items[i])
    ensures !v.List? ==> Render(r) == Render(v)
  {
    match v
    case ObjectId(hex) => Str(hex)
    case List(items) =>
      var r := List(seq(|items|, i requires 0 <= i < |items| => ItemString(items[i])));
      assert Plain(v) ==> r.items == items;
      r
    case _ => v
  }

  /** `del obj[key]`: the entries without that key, in order. */
  function Remove(entries: Document, key: string): (r: Document)
    ensures key !in Keys(r)
    ensures forall k :: k != key ==> Lookup(r, k) == Lookup(entries, k)
    ensures forall k :: k != key ==> (k in Keys(r) <==> k in Keys(entries))
    decreases |entries|
  {
    if entries == [] then []
    else
      var rest := Remove(entries[1..], key);
      assert Keys(entries) == [entries[0].0] + Keys(entries[1..]);
      if entries[0].0 == key then
        rest
      else
        var r := [entries[0]] + rest;
        assert r[1..] == rest;
        assert Keys(r) == [entries[0].0] + Keys(rest);
        r
  }

  /** The `for key, value in obj.items()` loop: every value converted in place. */
  function ConvertAll(entries: Document): (r: Document)
    ensures |r| == |entries| && forall i :: 0 <= i < |r| ==> r[i] == (entries[i].0, Converted(entries[i].1))
    ensures Keys(r) == Keys(entries)
    ensures forall k :: Lookup(r, k) == if Lookup(entries, k).Some? then Some(Converted(Lookup(entries, k).value)) else None
    decreases |entries|
  {
    if entries == [] then []
    else
      var rest := ConvertAll(entries[1..]);
      var r := [(entries[0].0, Converted(entries[0].1))] + rest;
      assert r[1..] == rest;
      assert Keys(r) == [entries[0].0] + Keys(rest);
      assert Keys(entries) == [entries[0].0] + Keys(entries[1..]);
      r
  }

  /** The document after the rename of `_id` to `id`, before the conversion loop. */
  function Renamed(entries: Document): Document {
    match Lookup(entries, "_id")
    case None => entries
    case Some(id) => Remove(Put(entries, "id", Str(Render(id))), "_id")
  }

  /**
   * `serialize_object_id`. `None` stands for a `None` argument. A Python dict
   * holds each key once, so removing every `_id` entry is `del obj["_id"]`.
   */
  function SerializeObjectId(obj: Option<Document>): (r: Option<Document>)
    ensures r.None? <==> obj.None?
  {
    match obj
    case None => None
    case Some(entries) => Some(ConvertAll(Renamed(entries)))
  }

  /**
   * The keys of the result: those of the document without `_id`, plus `id`
   * when `_id` was present; with `_id` the `id` key is new or keeps its place.
   */
  lemma SerializeKeys(entries: Document, k: string)
    ensures var r := SerializeObjectId(Some(entries)).value;
      && (k in Keys(r) <==> (k in Keys(entries) && k != "_id") || (k == "id" && "_id" in Keys(entries)))
      && ("_id" !in Keys(entries) ==> Keys(r) == Keys(entries))
  {
    LookupSpec(entries, "_id");
    LookupSpec(entries, k);
    if Lookup(entries, "_id").Some? {
      var id := Str(Render(Lookup(entries, "_id").value));
      PutKeys(entries, "id", id);
      PutKeepsOther(entries, "id", id, k);
      var put := Put(entries, "id", id);
      LookupSpec(put, k);
      LookupSpec(put, "id");
      if k != "_id" && k != "id" {
        assert k in Keys(put) <==> k in Keys(entries);
      }
    }
  }

  /**
   * What the result holds under each key: `id` holds `str(_id)` when `_id`
   * was present, `_id` is gone, and every other key holds its old value
   * after conversion.
   */
  lemma SerializeLookup(entries: Document, k: string)
    ensures var r := SerializeObjectId(Some(entries)).value;
      var id := Lookup(entries, "_id");
      && Lookup(r, "_id").None?
      && (id.Some? ==> Lookup(r, "id") == Some(Str(Render(id.value))))
      && ((id.None? || k != "id") && k != "_id" ==>
            Lookup(r, k) == if Lookup(entries, k).Some? then Some(Converted(Lookup(entries, k).value)) else None)
  {
    LookupSpec(entries, "_id");
    var renamed := Renamed(entries);
    LookupSpec(renamed, "_id");
    if Lookup(entries, "_id").Some? {
      var id := Str(Render(Lookup(entries, "_id").value));
      PutKeepsOther(entries, "id", id, k);
    }
  }

  /** An ObjectId under `_id` becomes an `id` holding its hexadecimal string. */
  lemma ObjectIdRenamed(entries: Document, hex: string)
    requires Lookup(entries, "_id") == Some(ObjectId(hex))
    ensures Lookup(SerializeObjectId(Some(entries)).value, "id") == Some(Str(hex))
  {
    assert Render(ObjectId(hex)) == hex;
    var put := Put(entries, "id", Str(hex));
    assert Lookup(put, "id") == Some(Str(hex));
    assert Lookup(Renamed(entries), "id") == Some(Str(hex));
    assert Converted(Str(hex)) == Str(hex);
  }

  /** No ObjectId is left at the top level or directly inside a top-level list. */
  lemma SerializedPlain(entries: Document, k: string)
    ensures var r := SerializeObjectId(Some(entries)).value;
      Lookup(r, k).Some? ==> Plain(Lookup(r, k).value)
  {
  }

  /** A document whose values are all plain and that has no `_id` comes back unchanged. */
  lemma PlainUnchanged(entries: Document)
    requires "_id" !in Keys(entries)
    requires forall i :: 0 <= i < |entries| ==> Plain(entries[i].1)
    ensures SerializeObjectId(Some(entries)) == Some(entries)
  {
    LookupSpec(entries, "_id");
    assert Renamed(entries) == entries;
    var r := ConvertAll(entries);
    forall i | 0 <= i < |r|
      ensures r[i] == entries[i]
    {
      assert Plain(entries[i].1);
    }
    assert r == entries;
  }

  /** Serialising twice is serialising once. */
  lemma SerializeIdempotent(obj: Option<Document>)
    ensures SerializeObjectId(SerializeObjectId(obj)) == SerializeObjectId(obj)
  {
    if obj.Some? {
      var r := SerializeObjectId(obj).value;
      SerializeKeys(obj.value, "_id");
      PlainUnchanged(r);
    }
  }
}
