/**
 * The two runs of formatter/src/lib.rs, `format` and `assign`, with the csv
 * reader and writer taken away: the input is the sequence of rows the reader
 * yields, each already split into fields, and the output is the sequence of
 * rows handed to the writer. Column 1 is the key, column 2 the revision as
 * written, column 3 the last-modified time and column 4 the JSON payload.
 * A payload that does not decode skips its row and the run goes on.
 */
module Projection {
  import opened Wrappers
  import opened Json
  import opened Records
  import opened Sanitize
  import Serde

  /**
   * An input row as the csv reader yields it, split into its fields. The
   * source reads columns 1 to 4 and panics on a shorter row, so a row has at
   * least five fields.
   */
  type Row = r: seq<string> | |r| >= 5 witness ["", "", "", "", ""]

  /** A row handed to the csv writer. */
  type OutRow = seq<string>

  /** serde_json's text parser: `None` for text that is not JSON. */
  type Parser = string -> Option<Value>

  /** The row's payload as a record, or `None` when the row is skipped. */
  function DecodeRow(row: Row, parse: Parser): Option<Record>
  {
    match parse(row[4])
    case None => None
    case Some(v) => Serde.Decode(v)
  }

  /** How many rows a run skips because their payload does not decode. */
  function Failures(rows: seq<Row>, parse: Parser): (n: nat)
    ensures n <= |rows|
  {
    if |rows| == 0 then 0
    else (if DecodeRow(rows[0], parse).None? then 1 else 0) + Failures(rows[1..], parse)
  }

  // ---------------------------------------------------------------------
  // format

  /**
   * The row `format` writes for a decoded record. Key, revision text and
   * last-modified time are copied as written, so the revision column is the
   * input text and not the decoded number. The name (or title) and the
   * personal name (or subtitle, an absent one read as empty) are cleaned.
   */
  function FormatRecord(row: Row, rec: Record): (out: OutRow)
    ensures |out| == 5
    ensures out[0] == row[1] && out[1] == row[2] && out[2] == row[3]
    ensures IsClean(out[3]) && IsClean(out[4])
    ensures rec.entity.Author? ==>
      out[3] == Clean(rec.entity.name) && out[4] == Clean(rec.entity.personalName.UnwrapOr(""))
    ensures rec.entity.Work? ==>
      out[3] == Clean(rec.entity.title) && out[4] == Clean(rec.entity.subtitle.UnwrapOr(""))
  {
    match rec.entity
    case Author(name, personalName) =>
      [row[1], row[2], row[3], Clean(name), Clean(personalName.UnwrapOr(""))]
    case Work(_, subtitle, title) =>
      [row[1], row[2], row[3], Clean(title), Clean(subtitle.UnwrapOr(""))]
  }

  /** One pass of `format`'s loop: a row out for a payload that decodes, none otherwise. */
  function FormatRow(row: Row, parse: Parser): (out: seq<OutRow>)
    ensures |out| == (if DecodeRow(row, parse).Some? then 1 else 0)
    ensures |out| == 1 ==> out[0] == FormatRecord(row, DecodeRow(row, parse).value)
  {
    match DecodeRow(row, parse)
    case None => []
    case Some(rec) => [FormatRecord(row, rec)]
  }

  /**
   * The whole `format` run. One row out per row whose payload decodes: the
   * output is as long as the input less the skipped rows.
   */
  function Format(rows: seq<Row>, parse: Parser): (out: seq<OutRow>)
    ensures |out| == |rows| - Failures(rows, parse)
  {
    if |rows| == 0 then []
    else FormatRow(rows[0], parse) + Format(rows[1..], parse)
  }

  /** Every row `format` writes has five columns, and its two text columns are clean. */
  lemma {:induction false} FormatShape(rows: seq<Row>, parse: Parser)
    ensures forall j :: 0 <= j < |Format(rows, parse)| ==>
      |Format(rows, parse)[j]| == 5 && IsClean(Format(rows, parse)[j][3]) && IsClean(Format(rows, parse)[j][4])
  {
    if |rows| > 0 {
      FormatShape(rows[1..], parse);
      var head, tail := FormatRow(rows[0], parse), Format(rows[1..], parse);
      assert Format(rows, parse) == head + tail;
      forall j | 0 <= j < |head + tail|
        ensures |(head + tail)[j]| == 5 && IsClean((head + tail)[j][3]) && IsClean((head + tail)[j][4])
      {
        if j >= |head| {
          assert (head + tail)[j] == tail[j - |head|];
        }
      }
    }
  }

  /** Output order follows input order: the rows of a prefix come first. */
  lemma {:induction false} FormatConcat(a: seq<Row>, b: seq<Row>, parse: Parser)
    ensures Format(a + b, parse) == Format(a, parse) + Format(b, parse)
    decreases |a|
  {
    if |a| == 0 {
      assert a + b == b;
    } else {
      assert (a + b)[1..] == a[1..] + b;
      FormatConcat(a[1..], b, parse);
    }
  }

  /** A row that does not decode writes nothing and the rows after it are still formatted. */
  lemma FormatSkipsFailure(a: seq<Row>, bad: Row, b: seq<Row>, parse: Parser)
    requires DecodeRow(bad, parse).None?
    ensures Format(a + [bad] + b, parse) == Format(a, parse) + Format(b, parse)
  {
    assert Format(a + [bad], parse) == Format(a, parse) by {
      FormatConcat(a, [bad], parse);
      assert Format([bad], parse) == [];
    }
    FormatConcat(a + [bad], b, parse);
  }

  /** Without skipped rows the run is one-to-one: output row i belongs to input row i. */
  lemma {:induction false} FormatOneToOne(rows: seq<Row>, parse: Parser)
    requires Failures(rows, parse) == 0
    ensures |Format(rows, parse)| == |rows|
    ensures forall i :: 0 <= i < |rows| ==>
      DecodeRow(rows[i], parse).Some? &&
      Format(rows, parse)[i] == FormatRecord(rows[i], DecodeRow(rows[i], parse).value)
  {
    if |rows| > 0 {
      FormatOneToOne(rows[1..], parse);
      var out := Format(rows, parse);
      assert out == FormatRow(rows[0], parse) + Format(rows[1..], parse);
      forall i | 0 <= i < |rows|
        ensures DecodeRow(rows[i], parse).Some?
        ensures out[i] == FormatRecord(rows[i], DecodeRow(rows[i], parse).value)
      {
        if i > 0 {
          assert rows[i] == rows[1..][i - 1];
        }
      }
    }
  }

  /** One more input row appends exactly that row's output. */
  lemma FormatSnoc(rows: seq<Row>, i: int, parse: Parser)
    requires 0 <= i < |rows|
    ensures Format(rows[..i + 1], parse) == Format(rows[..i], parse) + FormatRow(rows[i], parse)
  {
    assert rows[..i + 1] == rows[..i] + [rows[i]];
    FormatConcat(rows[..i], [rows[i]], parse);
    assert Format([rows[i]], parse) == FormatRow(rows[i], parse) + Format([], parse);
  }

  /** `format`'s loop as the source writes it: decode, skip on failure, write one row. */
  method RunFormat(rows: seq<Row>, parse: Parser) returns (out: seq<OutRow>)
    ensures out == Format(rows, parse)
  {
    out := [];
    var i := 0;
    while i < |rows|
      invariant 0 <= i <= |rows|
      invariant out == Format(rows[..i], parse)
    {
      var row := rows[i];
      FormatSnoc(rows, i, parse);
      i := i + 1;
      var decoded := DecodeRow(row, parse);
      if decoded.None? {
        continue;
      }
      out := out + [FormatRecord(row, decoded.value)];
    }
    assert rows[..i] == rows;
  }

  // ---------------------------------------------------------------------
  // assign

  /** The `for_each` over a work's authors: a `[key, author key]` row per reference, in order. */
  function AuthorRows(key: string, refs: seq<AuthorReference>): (out: seq<OutRow>)
    ensures |out| == |refs|
    ensures forall i :: 0 <= i < |refs| ==> out[i] == [key, refs[i].author.key]
  {
    if |refs| == 0 then []
    else [[key, refs[0].author.key]] + AuthorRows(key, refs[1..])
  }

  /** How many author references a record holds: those of a work that lists them. */
  function Links(rec: Record): nat {
    match rec.entity
    case Work(Some(refs), _, _) => |refs|
    case _ => 0
  }

  /**
   * The rows `assign` writes for a decoded record. A work with a list of
   * authors gives one row per reference, in list order, holding the row's key
   * and the author key exactly as written; an author, or a work without a
   * list, gives none.
   */
  function AssignRecord(key: string, rec: Record): (out: seq<OutRow>)
    ensures |out| == Links(rec)
    ensures rec.entity.Author? || rec.entity.authors.None? ==> out == []
    ensures rec.entity.Work? && rec.entity.authors.Some? ==>
      forall i :: 0 <= i < |out| ==> out[i] == [key, rec.entity.authors.value[i].author.key]
  {
    match rec.entity
    case Work(Some(refs), _, _) => AuthorRows(key, refs)
    case _ => []
  }

  /**
   * One pass of `assign`'s loop: nothing for a payload that does not decode,
   * otherwise one two-column row per author reference, each starting with
   * the row's key column and ending with that reference's author key.
   */
  function AssignRow(row: Row, parse: Parser): (out: seq<OutRow>)
    ensures DecodeRow(row, parse).None? ==> out == []
    ensures |out| == (match DecodeRow(row, parse) case None => 0 case Some(rec) => Links(rec))
    ensures forall j :: 0 <= j < |out| ==> |out[j]| == 2 && out[j][0] == row[1]
    ensures match DecodeRow(row, parse)
      case Some(Record(Work(Some(refs), _, _), _)) =>
        forall j :: 0 <= j < |out| ==> out[j][1] == refs[j].author.key
      case _ => true
  {
    match DecodeRow(row, parse)
    case None => []
    case Some(rec) => AssignRecord(row[1], rec)
  }

  /** How many author references the decodable rows hold in all. */
  function TotalLinks(rows: seq<Row>, parse: Parser): nat
  {
    if |rows| == 0 then 0
    else
      (match DecodeRow(rows[0], parse) case None => 0 case Some(rec) => Links(rec))
      + TotalLinks(rows[1..], parse)
  }

  /**
   * The whole `assign` run: one row per author reference of every work that
   * decodes, so the output is as long as the references are many.
   */
  function Assign(rows: seq<Row>, parse: Parser): (out: seq<OutRow>)
    ensures |out| == TotalLinks(rows, parse)
  {
    if |rows| == 0 then []
    else AssignRow(rows[0], parse) + Assign(rows[1..], parse)
  }

  /** Every row `assign` writes has two columns, the first the key column of some input row. */
  lemma AssignShape(rows: seq<Row>, parse: Parser)
    ensures forall j :: 0 <= j < |Assign(rows, parse)| ==>
      |Assign(rows, parse)[j]| == 2 && exists i :: 0 <= i < |rows| && Assign(rows, parse)[j][0] == rows[i][1]
  {
    AssignKeyed(rows, parse);
  }

  /** The key column of every input row, in input order. */
  function KeyColumn(rows: seq<Row>): (keys: seq<string>)
    ensures |keys| == |rows|
    ensures forall i :: 0 <= i < |rows| ==> keys[i] == rows[i][1]
  {
    if |rows| == 0 then [] else [rows[0][1]] + KeyColumn(rows[1..])
  }

  /** Every output row has two columns and starts with one of `keys`. */
  ghost predicate KeyedBy(out: seq<OutRow>, keys: seq<string>) {
    forall j :: 0 <= j < |out| ==> |out[j]| == 2 && out[j][0] in keys
  }

  /** `assign`'s output is keyed by the input's key column. */
  lemma {:induction false} AssignKeyed(rows: seq<Row>, parse: Parser)
    ensures KeyedBy(Assign(rows, parse), KeyColumn(rows))
  {
    if |rows| > 0 {
      var head, tail := AssignRow(rows[0], parse), Assign(rows[1..], parse);
      assert Assign(rows, parse) == head + tail;
      assert KeyColumn(rows) == [rows[0][1]] + KeyColumn(rows[1..]);
      AssignKeyed(rows[1..], parse);
      KeyedByConcat(head, tail, [rows[0][1]], KeyColumn(rows[1..]));
    }
  }

  /** Keyed output stays keyed under concatenation. */
  lemma KeyedByConcat(a: seq<OutRow>, b: seq<OutRow>, ka: seq<string>, kb: seq<string>)
    requires forall j :: 0 <= j < |a| ==> |a[j]| == 2 && a[j][0] in ka
    requires KeyedBy(b, kb)
    ensures KeyedBy(a + b, ka + kb)
  {
    forall j | 0 <= j < |a + b|
      ensures |(a + b)[j]| == 2 && (a + b)[j][0] in ka + kb
    {
      if j >= |a| {
        assert (a + b)[j] == b[j - |a|];
      }
    }
  }

  /** Output order follows input order, grouped by input row. */
  lemma {:induction false} AssignConcat(a: seq<Row>, b: seq<Row>, parse: Parser)
    ensures Assign(a + b, parse) == Assign(a, parse) + Assign(b, parse)
    decreases |a|
  {
    if |a| == 0 {
      assert a + b == b;
    } else {
      assert (a + b)[1..] == a[1..] + b;
      AssignConcat(a[1..], b, parse);
    }
  }

  /** A row that does not decode writes nothing and the rows after it are still processed. */
  lemma AssignSkipsFailure(a: seq<Row>, bad: Row, b: seq<Row>, parse: Parser)
    requires DecodeRow(bad, parse).None?
    ensures Assign(a + [bad] + b, parse) == Assign(a, parse) + Assign(b, parse)
  {
    assert Assign(a + [bad], parse) == Assign(a, parse) by {
      AssignConcat(a, [bad], parse);
      assert Assign([bad], parse) == [];
    }
    AssignConcat(a + [bad], b, parse);
  }

  /** `assign`'s loop as the source writes it: decode, skip on failure, write a work's author rows. */
  method RunAssign(rows: seq<Row>, parse: Parser) returns (out: seq<OutRow>)
    ensures out == Assign(rows, parse)
  {
    out := [];
    var i := 0;
    while i < |rows|
      invariant 0 <= i <= |rows|
      invariant out == Assign(rows[..i], parse)
    {
      var row := rows[i];
      AssignSnoc(rows, i, parse);
      i := i + 1;
      var written := AssignOne(row, parse);
      out := out + written;
    }
    assert rows[..i] == rows;
  }

  /** One more input row appends exactly that row's output. */
  lemma AssignSnoc(rows: seq<Row>, i: int, parse: Parser)
    requires 0 <= i < |rows|
    ensures Assign(rows[..i + 1], parse) == Assign(rows[..i], parse) + AssignRow(rows[i], parse)
  {
    assert rows[..i + 1] == rows[..i] + [rows[i]];
    AssignConcat(rows[..i], [rows[i]], parse);
    assert Assign([rows[i]], parse) == AssignRow(rows[i], parse) + Assign([], parse);
  }

  /** The body of `assign`'s loop for one row. */
  method AssignOne(row: Row, parse: Parser) returns (written: seq<OutRow>)
    ensures written == AssignRow(row, parse)
  {
    written := [];
    var decoded := DecodeRow(row, parse);
    if decoded.None? {
      return;
    }
    match decoded.value.entity {
      case Work(Some(refs), _, _) =>
        written := WriteAuthorRows(row[1], refs);
      case _ =>
    }
  }

  /** The source's `for_each`: one row written per author reference, in order. */
  method WriteAuthorRows(key: string, refs: seq<AuthorReference>) returns (out: seq<OutRow>)
    ensures out == AuthorRows(key, refs)
  {
    out := [];
    var k := 0;
    while k < |refs|
      invariant 0 <= k <= |refs|
      invariant out == AuthorRows(key, refs[..k])
    {
      AuthorRowsSnoc(key, refs[..k], refs[k]);
      assert refs[..k + 1] == refs[..k] + [refs[k]];
      out := out + [[key, refs[k].author.key]];
      k := k + 1;
    }
    assert refs[..k] == refs;
  }

  lemma AuthorRowsSnoc(key: string, refs: seq<AuthorReference>, last: AuthorReference)
    ensures AuthorRows(key, refs + [last]) == AuthorRows(key, refs) + [[key, last.author.key]]
  {
    var l, r := AuthorRows(key, refs + [last]), AuthorRows(key, refs) + [[key, last.author.key]];
    assert |l| == |r|;
    forall i | 0 <= i < |l|
      ensures l[i] == r[i]
    {
      if i < |refs| {
        assert (refs + [last])[i] == refs[i];
      }
    }
  }

  // ---------------------------------------------------------------------
  // From the payload to the output, end to end.

  /** The text an optional string field contributes: absent, null or not a string reads as empty. */
  ghost function OptionalText(m: Serde.Fields, k: string): string {
    if k in m && m[k].Str? then m[k].s else ""
  }

  /**
   * What `format` writes in its text columns, read off the payload: the
   * cleaned `name` and `personal_name` when the object has the author
   * fields, and otherwise the cleaned `title` and `subtitle`.
   */
  lemma FormatFromPayload(row: Row, parse: Parser)
    requires DecodeRow(row, parse).Some?
    ensures parse(row[4]).Some? && parse(row[4]).value.Obj?
    ensures
      var m, out := parse(row[4]).value.fields, FormatRow(row, parse);
      && |out| == 1
      && (Serde.AuthorShape(m) ==>
            out[0][3] == Clean(m["name"].s) && out[0][4] == Clean(OptionalText(m, "personal_name")))
      && (!Serde.AuthorShape(m) ==>
            out[0][3] == Clean(m["title"].s) && out[0][4] == Clean(OptionalText(m, "subtitle")))
  {
    var v := parse(row[4]).value;
    Serde.DecodeSucceeds(v);
    if Serde.AuthorShape(v.fields) {
      Serde.DecodePrefersAuthor(v);
    }
  }

  /**
   * What `assign` writes, read off the payload: nothing for an object with
   * the author fields or without an `authors` array, and otherwise one row
   * per element of that array, in order, pairing the row's key with the
   * author key the element names.
   */
  lemma AssignFromPayload(row: Row, parse: Parser)
    requires DecodeRow(row, parse).Some?
    ensures parse(row[4]).Some? && parse(row[4]).value.Obj?
    ensures
      var m, out := parse(row[4]).value.fields, AssignRow(row, parse);
      && (Serde.AuthorShape(m) || "authors" !in m || !m["authors"].Arr? ==> out == [])
      && (!Serde.AuthorShape(m) && "authors" in m && m["authors"].Arr? ==>
            && |out| == |m["authors"].items|
            && forall i :: 0 <= i < |out| ==>
                 Serde.ReferenceShape(m["authors"].items[i]) &&
                 out[i] == [row[1], Serde.ReferenceKey(m["authors"].items[i])])
  {
    var v := parse(row[4]).value;
    Serde.DecodeSucceeds(v);
    if Serde.AuthorShape(v.fields) {
      Serde.DecodePrefersAuthor(v);
    } else if "authors" in v.fields && v.fields["authors"].Arr? {
      Serde.DecodeKeepsAuthorKeys(v);
    }
  }

  /** A row `assign` writes anything for is a row `format` writes a row for. */
  lemma AssignedRowsAreFormatted(row: Row, parse: Parser)
    requires |AssignRow(row, parse)| > 0
    ensures |FormatRow(row, parse)| == 1
  {
  }

  // ---------------------------------------------------------------------
  // Worked rows.

  /** An author row: the newline in the name is deleted and a null personal name is written empty. */
  lemma FormatAuthorRow(parse: Parser, payload: string)
    requires parse(payload) == Some(Obj(map["name" := Str("A\nB"), "personal_name" := Null, "revision" := Int(3)]))
    ensures Format([["0", "K1", "3", "2020-01-01", payload]], parse) == [["K1", "3", "2020-01-01", "AB", ""]]
  {
    var row := ["0", "K1", "3", "2020-01-01", payload];
    var rec := Record(Author("A\nB", None), 3);
    assert DecodeRow(row, parse) == Some(rec) by {
      assert Serde.DecodeEntity(parse(payload).value.fields) == Some(rec.entity);
    }
    assert Clean("A\nB") == "AB" by {
      assert Delete("A\nB", '\n') == "AB";
      assert Delete("AB", '\\') == "AB";
    }
    assert Format([row], parse) == FormatRow(row, parse) + Format([], parse);
  }

  /** A work payload with a title and one author. */
  const WorkPayload: Value := Obj(map[
    "title" := Str("T"),
    "authors" := Arr([Obj(map["author" := Obj(map["key" := Str("/authors/9")])])]),
    "revision" := Int(1)])

  lemma DecodeWorkPayload(parse: Parser, row: Row)
    requires parse(row[4]) == Some(WorkPayload)
    ensures DecodeRow(row, parse) == Some(Record(Work(Some([AuthorReference(AuthorKey("/authors/9"))]), None, "T"), 1))
  {
    var ref := AuthorReference(AuthorKey("/authors/9"));
    var refs := WorkPayload.fields["authors"].items;
    assert Serde.DecodeAuthorReference(refs[0]) == Some(ref);
    assert Serde.DecodeAuthorList(refs).value == [ref];
  }

  /** A work row with one author: `assign` writes the row's key with the author key. */
  lemma AssignWorkRow(parse: Parser, payload: string)
    requires parse(payload) == Some(WorkPayload)
    ensures Assign([["0", "K2", "1", "2020-01-01", payload]], parse) == [["K2", "/authors/9"]]
  {
    var row := ["0", "K2", "1", "2020-01-01", payload];
    DecodeWorkPayload(parse, row);
    assert Assign([row], parse) == AssignRow(row, parse) + Assign([], parse);
  }

  /** A work row with one author: `format` writes the title and an empty subtitle. */
  lemma FormatWorkRow(parse: Parser, payload: string)
    requires parse(payload) == Some(WorkPayload)
    ensures Format([["0", "K2", "1", "2020-01-01", payload]], parse) == [["K2", "1", "2020-01-01", "T", ""]]
  {
    var row := ["0", "K2", "1", "2020-01-01", payload];
    DecodeWorkPayload(parse, row);
    assert Clean("T") == "T" by {
      assert Delete("T", '\n') == "T";
      assert Delete("T", '\\') == "T";
    }
    assert Format([row], parse) == FormatRow(row, parse) + Format([], parse);
  }

  /** A payload that is not JSON writes nothing in either mode. */
  lemma UnparsableRow(parse: Parser, row: Row)
    requires parse(row[4]).None?
    ensures Format([row], parse) == [] && Assign([row], parse) == []
  {
    assert Format([row], parse) == FormatRow(row, parse) + Format([], parse);
    assert Assign([row], parse) == AssignRow(row, parse) + Assign([], parse);
  }
}
