/**
 * How serde's derived deserialiser turns a JSON value into a `Record`, and
 * how its derived serialiser turns a `Record` back into JSON.
 *
 * The `Record` struct flattens its `entity` and adds `revision: u32`, so a
 * payload is a single JSON object. The entity is an untagged union: the
 * object is tried as an author first and as a work second, and the first
 * variant whose fields all decode wins. Keys neither variant names are
 * ignored. An absent optional field and a null one both give `None`.
 */
module Serde {
  import opened Wrappers
  import opened Json
  import opened Records

  type Fields = map<string, Value>

  /** The keys the record model reads; every other key is ignored. */
  const KnownKeys: set<string> := {"name", "personal_name", "authors", "subtitle", "title", "revision"}

  /** A `String` field: it must be present and hold a JSON string. */
  function RequiredString(m: Fields, k: string): Option<string> {
    if k in m && m[k].Str? then Some(m[k].s) else None
  }

  /**
   * An `Option<String>` field. The outer `None` is a decode failure; an
   * absent key or `null` decodes to `Some(None)`.
   */
  function OptionalString(m: Fields, k: string): Option<Option<string>> {
    if k !in m || m[k].Null? then Some(None)
    else if m[k].Str? then Some(Some(m[k].s))
    else None
  }

  /**
   * `AuthorKey { key: String }`. As a plain derived struct it accepts an
   * object, or an array holding the fields in declaration order, here
   * exactly one string. (`Record`, whose `flatten` makes it map-only, has
   * no array form.)
   */
  function DecodeAuthorKey(v: Value): Option<AuthorKey> {
    match v
    case Obj(m) => if "key" in m && m["key"].Str? then Some(AuthorKey(m["key"].s)) else None
    case Arr(items) => if |items| == 1 && items[0].Str? then Some(AuthorKey(items[0].s)) else None
    case _ => None
  }

  /** `AuthorReference { author: AuthorKey }`, as an object or a one-element array. */
  function DecodeAuthorReference(v: Value): Option<AuthorReference> {
    var inner :=
      match v
      case Obj(m) => if "author" in m then Some(m["author"]) else None
      case Arr(items) => if |items| == 1 then Some(items[0]) else None
      case _ => None;
    if inner.Some? && DecodeAuthorKey(inner.value).Some? then
      Some(AuthorReference(DecodeAuthorKey(inner.value).value))
    else
      None
  }

  /** `Vec<AuthorReference>`: fails if any element fails, otherwise keeps every element in order. */
  function DecodeAuthorList(items: seq<Value>): (r: Option<seq<AuthorReference>>)
    ensures r.Some? <==> forall i :: 0 <= i < |items| ==> DecodeAuthorReference(items[i]).Some?
    ensures r.Some? ==> |r.value| == |items|
    ensures r.Some? ==> forall i :: 0 <= i < |items| ==> DecodeAuthorReference(items[i]) == Some(r.value[i])
  {
    if |items| == 0 then
      Some([])
    else
      var head := DecodeAuthorReference(items[0]);
      var tail := DecodeAuthorList(items[1..]);
      if head.Some? && tail.Some? then
        Some([head.value] + tail.value)
      else
        None
  }

  /** `Option<Vec<AuthorReference>>`: absent or null gives `Some(None)`. */
  function OptionalAuthors(m: Fields): Option<Option<seq<AuthorReference>>> {
    if "authors" !in m || m["authors"].Null? then Some(None)
    else if m["authors"].Arr? then
      var list := DecodeAuthorList(m["authors"].items);
      if list.Some? then Some(Some(list.value)) else None
    else None
  }

  /** The `Author` variant: a string `name` and an optional string `personal_name`. */
  function DecodeAuthor(m: Fields): Option<Entity> {
    var name := RequiredString(m, "name");
    var personalName := OptionalString(m, "personal_name");
    if name.Some? && personalName.Some? then Some(Author(name.value, personalName.value))
    else None
  }

  /** The `Work` variant: optional `authors`, optional string `subtitle`, string `title`. */
  function DecodeWork(m: Fields): Option<Entity> {
    var authors := OptionalAuthors(m);
    var subtitle := OptionalString(m, "subtitle");
    var title := RequiredString(m, "title");
    if authors.Some? && subtitle.Some? && title.Some? then Some(Work(authors.value, subtitle.value, title.value))
    else None
  }

  /** The untagged union: the variants are tried in declaration order. */
  function DecodeEntity(m: Fields): Option<Entity> {
    var author := DecodeAuthor(m);
    if author.Some? then author else DecodeWork(m)
  }

  /** `revision: u32`: a JSON integer from 0 to 2^32 - 1; a fraction, a string or null fails. */
  function DecodeRevision(m: Fields): Option<u32> {
    if "revision" in m && m["revision"].Int? && 0 <= m["revision"].i < 0x1_0000_0000 then
      Some(m["revision"].i as u32)
    else
      None
  }

  /**
   * A payload as a `Record`. Whatever decodes came from the payload: the
   * revision and every required or present field are the JSON values found
   * under their keys, and a `None` stands for an absent or null key.
   */
  function Decode(v: Value): (r: Option<Record>)
    ensures r.Some? ==> v.Obj? && "revision" in v.fields && v.fields["revision"] == Int(r.value.revision as int)
    ensures r.Some? && r.value.entity.Author? ==>
      && "name" in v.fields && v.fields["name"] == Str(r.value.entity.name)
      && HoldsOptional(v.fields, "personal_name", r.value.entity.personalName)
    ensures r.Some? && r.value.entity.Work? ==>
      && "title" in v.fields && v.fields["title"] == Str(r.value.entity.title)
      && HoldsOptional(v.fields, "subtitle", r.value.entity.subtitle)
      && (r.value.entity.authors.None? <==> "authors" !in v.fields || v.fields["authors"].Null?)
  {
    match v
    case Obj(m) =>
      var revision := DecodeRevision(m);
      var entity := DecodeEntity(m);
      if revision.Some? && entity.Some? then Some(Record(entity.value, revision.value)) else None
    case _ => None
  }

  /** Key `k` of `m` is what an `Option<String>` field decoded to `o` must have held. */
  ghost predicate HoldsOptional(m: Fields, k: string, o: Option<string>) {
    match o
    case Some(s) => k in m && m[k] == Str(s)
    case None => k !in m || m[k] == Null
  }

  // ---------------------------------------------------------------------
  // Shapes: which objects each variant accepts, stated field by field.

  /** A value allowed where an `Option<String>` is expected. */
  ghost predicate OptionalStringShape(m: Fields, k: string) {
    k !in m || m[k].Null? || m[k].Str?
  }

  /** A value that names an author key, as an object or a one-element array. */
  ghost predicate KeyShape(v: Value) {
    || (v.Obj? && "key" in v.fields && v.fields["key"].Str?)
    || (v.Arr? && |v.items| == 1 && v.items[0].Str?)
  }

  /** A value that wraps an author key, as an object or a one-element array. */
  ghost predicate ReferenceShape(v: Value) {
    || (v.Obj? && "author" in v.fields && KeyShape(v.fields["author"]))
    || (v.Arr? && |v.items| == 1 && KeyShape(v.items[0]))
  }

  ghost predicate AuthorShape(m: Fields) {
    "name" in m && m["name"].Str? && OptionalStringShape(m, "personal_name")
  }

  ghost predicate WorkShape(m: Fields) {
    && "title" in m && m["title"].Str?
    && OptionalStringShape(m, "subtitle")
    && ("authors" !in m || m["authors"].Null? ||
        (m["authors"].Arr? && forall i :: 0 <= i < |m["authors"].items| ==> ReferenceShape(m["authors"].items[i])))
  }

  ghost predicate RevisionShape(m: Fields) {
    "revision" in m && m["revision"].Int? && 0 <= m["revision"].i < 0x1_0000_0000
  }

  lemma DecodeAuthorReferenceShape(v: Value)
    ensures DecodeAuthorReference(v).Some? <==> ReferenceShape(v)
  {
  }

  /** The author key a reference-shaped value names. */
  ghost function ReferenceKey(v: Value): string
    requires ReferenceShape(v)
  {
    var key := if v.Obj? then v.fields["author"] else v.items[0];
    if key.Obj? then key.fields["key"].s else key.items[0].s
  }

  /**
   * A work's author list is the payload's `authors` array read element by
   * element: same length, same order, each key the string the element names.
   */
  lemma DecodeKeepsAuthorKeys(v: Value)
    requires Decode(v).Some? && Decode(v).value.entity.Work? && Decode(v).value.entity.authors.Some?
    ensures "authors" in v.fields && v.fields["authors"].Arr?
    ensures var items, refs := v.fields["authors"].items, Decode(v).value.entity.authors.value;
      |refs| == |items| &&
      forall i :: 0 <= i < |items| ==> ReferenceShape(items[i]) && refs[i].author.key == ReferenceKey(items[i])
  {
    var items := v.fields["authors"].items;
    forall i | 0 <= i < |items|
      ensures ReferenceShape(items[i])
    {
      DecodeAuthorReferenceShape(items[i]);
    }
  }

  /** A payload decodes exactly when it is an object with a valid revision and the fields of one variant. */
  lemma DecodeSucceeds(v: Value)
    ensures Decode(v).Some? <==> v.Obj? && RevisionShape(v.fields) && (AuthorShape(v.fields) || WorkShape(v.fields))
  {
    if v.Obj? {
      var m := v.fields;
      if "authors" in m && m["authors"].Arr? {
        forall i | 0 <= i < |m["authors"].items|
          ensures DecodeAuthorReference(m["authors"].items[i]).Some? <==> ReferenceShape(m["authors"].items[i])
        {
          DecodeAuthorReferenceShape(m["authors"].items[i]);
        }
      }
    }
  }

  /** An object with the author fields is an author, even when it also has the work fields. */
  lemma DecodePrefersAuthor(v: Value)
    requires v.Obj? && RevisionShape(v.fields) && AuthorShape(v.fields)
    ensures Decode(v).Some? && Decode(v).value.entity.Author?
  {
  }

  /** Only an object without the author fields decodes as a work. */
  lemma DecodeWorkNeedsNoAuthor(v: Value)
    requires Decode(v).Some? && Decode(v).value.entity.Work?
    ensures !AuthorShape(v.fields) && WorkShape(v.fields)
  {
    DecodeSucceeds(v);
  }

  /** Keys the record model does not name are ignored, whatever they hold. */
  lemma DecodeIgnoresUnknownKeys(m: Fields, k: string, x: Value)
    requires k !in KnownKeys
    ensures Decode(Obj(m[k := x])) == Decode(Obj(m))
  {
    var m' := m[k := x];
    assert forall j :: j in KnownKeys ==> (j in m' <==> j in m) && (j in m ==> m'[j] == m[j]);
  }

  /** For an optional field, `null` and an absent key decode alike. */
  lemma DecodeNullIsAbsent(m: Fields, k: string)
    requires k == "personal_name" || k == "subtitle" || k == "authors"
    ensures Decode(Obj(m[k := Null])) == Decode(Obj(m - {k}))
  {
    var a, b := m[k := Null], m - {k};
    assert forall j :: j in KnownKeys && j != k ==> (j in a <==> j in b) && (j in b ==> a[j] == b[j]);
  }

  /**
   * `revision: u32` takes no fraction, not even a whole one: serde_json
   * reads `-0` and literals beyond 64 bits as floats, and those are refused.
   */
  lemma FloatRevisionRefused(m: Fields, f: real)
    ensures Decode(Obj(m["revision" := Float(f)])).None?
  {
  }

  // ---------------------------------------------------------------------
  // Serialisation (derived `Serialize`): `None` becomes `null`, not an absent key.

  function EncodeOptional(o: Option<string>): Value {
    match o
    case Some(s) => Str(s)
    case None => Null
  }

  function EncodeAuthorReference(a: AuthorReference): Value {
    Obj(map["author" := Obj(map["key" := Str(a.author.key)])])
  }

  function EncodeAuthors(authors: Option<seq<AuthorReference>>): (v: Value)
    ensures authors.Some? ==> v.Arr? && |v.items| == |authors.value|
  {
    match authors
    case None => Null
    case Some(list) => Arr(seq(|list|, i requires 0 <= i < |list| => EncodeAuthorReference(list[i])))
  }

  function EncodeEntity(e: Entity): Fields {
    match e
    case Author(name, personalName) =>
      map["name" := Str(name), "personal_name" := EncodeOptional(personalName)]
    case Work(authors, subtitle, title) =>
      map["authors" := EncodeAuthors(authors), "subtitle" := EncodeOptional(subtitle), "title" := Str(title)]
  }

  /** The flattened entity's fields followed by `revision`. */
  function Encode(rec: Record): (v: Value)
    ensures v.Obj? && "revision" in v.fields && v.fields["revision"] == Int(rec.revision as int)
    ensures rec.entity.Author? ==> v.fields.Keys == {"name", "personal_name", "revision"}
    ensures rec.entity.Work? ==> v.fields.Keys == {"authors", "subtitle", "title", "revision"}
  {
    Obj(EncodeEntity(rec.entity)["revision" := Int(rec.revision as int)])
  }

  /** Decoding what was serialised gives the record back, for authors and works alike. */
  lemma DecodeEncode(rec: Record)
    ensures Decode(Encode(rec)) == Some(rec)
  {
    var m := Encode(rec).fields;
    assert DecodeRevision(m) == Some(rec.revision);
    match rec.entity
    case Author(_, _) =>
      assert DecodeEntity(m) == Some(rec.entity);
    case Work(authors, _, _) =>
      assert "name" !in m;
      if authors.Some? {
        DecodeEncodeAuthors(authors.value);
      }
      assert DecodeWork(m) == Some(rec.entity);
  }

  lemma DecodeEncodeAuthors(refs: seq<AuthorReference>)
    ensures DecodeAuthorList(EncodeAuthors(Some(refs)).items) == Some(refs)
  {
    var items := EncodeAuthors(Some(refs)).items;
    assert forall i :: 0 <= i < |items| ==> DecodeAuthorReference(items[i]) == Some(refs[i]);
    assert DecodeAuthorList(items).value == refs;
  }

  /** Serialisation never loses information: distinct records give distinct JSON. */
  lemma EncodeInjective(a: Record, b: Record)
    requires Encode(a) == Encode(b)
    ensures a == b
  {
    DecodeEncode(a);
    DecodeEncode(b);
  }

  // ---------------------------------------------------------------------
  // The source's own serde tests, over JSON values.

  /** An author with a personal name reads back field for field. */
  lemma DeserializeAuthorRecord()
    ensures Decode(Obj(map["name" := Str("name"), "personal_name" := Str("personal name"), "revision" := Int(1)]))
         == Some(Record(Author("name", Some("personal name")), 1))
  {
  }

  /** A work with two authors, a subtitle and a title reads back with its authors in order. */
  lemma DeserializeWorkRecord()
    ensures
      var refs := [Obj(map["author" := Obj(map["key" := Str("/authors/1")])]),
                   Obj(map["author" := Obj(map["key" := Str("/authors/2")])])];
      Decode(Obj(map["authors" := Arr(refs), "subtitle" := Str("subtitle"), "title" := Str("title"), "revision" := Int(1)]))
        == Some(Record(Work(Some([AuthorReference(AuthorKey("/authors/1")), AuthorReference(AuthorKey("/authors/2"))]),
                            Some("subtitle"), "title"), 1))
  {
    var refs := [Obj(map["author" := Obj(map["key" := Str("/authors/1")])]),
                 Obj(map["author" := Obj(map["key" := Str("/authors/2")])])];
    var want := [AuthorReference(AuthorKey("/authors/1")), AuthorReference(AuthorKey("/authors/2"))];
    assert DecodeAuthorReference(refs[0]) == Some(want[0]);
    assert DecodeAuthorReference(refs[1]) == Some(want[1]);
    var list := DecodeAuthorList(refs);
    assert list.Some? && |list.value| == 2;
    assert list.value == want;
  }

  /** Serialising an author gives the object the source's test expects. */
  lemma SerializeAuthorRecord()
    ensures Encode(Record(Author("name", Some("personal name")), 1))
         == Obj(map["name" := Str("name"), "personal_name" := Str("personal name"), "revision" := Int(1)])
  {
  }

  /** Serialising a work gives the object the source's test expects. */
  lemma SerializeWorkRecord()
    ensures
      var refs := [AuthorReference(AuthorKey("/authors/1")), AuthorReference(AuthorKey("/authors/2"))];
      Encode(Record(Work(Some(refs), Some("subtitle"), "title"), 1))
        == Obj(map["authors" := Arr([Obj(map["author" := Obj(map["key" := Str("/authors/1")])]),
                                     Obj(map["author" := Obj(map["key" := Str("/authors/2")])])]),
                   "subtitle" := Str("subtitle"), "title" := Str("title"), "revision" := Int(1)])
  {
    var refs := [AuthorReference(AuthorKey("/authors/1")), AuthorReference(AuthorKey("/authors/2"))];
    var encoded := EncodeAuthors(Some(refs));
    assert encoded.items == [EncodeAuthorReference(refs[0]), EncodeAuthorReference(refs[1])];
  }

  /** An author without a personal name serialises it as `null`, and reads back as `None`. */
  lemma SerializeAbsentAsNull()
    ensures Encode(Record(Author("A", None), 3)).fields["personal_name"] == Null
    ensures Decode(Obj(map["name" := Str("A"), "revision" := Int(3)])) == Some(Record(Author("A", None), 3))
  {
  }
}
