/**
 * `PDFSerializer`: the JSON shape of a `PDF` row. Four fields come from the
 * model (`id`, `title`, `file`, `uploaded_at`) and two are computed:
 * `filename` (the model's `filename()`) and `uploaded` (the upload time as
 * `YYYY-MM-DD HH:MM`, or `""` when there is none).
 */
module Serializers {
  import opened Wrappers
  import opened Text
  import opened Models

  /**
   * One field value before rendering. A file field and a datetime field are
   * kept as the values they render; how the framework turns them into a URL
   * and an ISO 8601 string is not part of this model.
   */
  datatype FieldValue =
    | IntValue(i: int)
    | StringValue(s: string)
    | FileValue(name: string)
    | DateTimeValue(at: Option<Timestamp>)

  /** A serialized record: its fields as (name, value) pairs, in output order. */
  type Serialized = seq<(string, FieldValue)>

  /** `Meta.fields`, in the order the output has them. */
  const Fields: seq<string> := ["id", "title", "file", "uploaded_at", "filename", "uploaded"]

  /** `get_uploaded`: `strftime('%Y-%m-%d %H:%M')` of the upload time, or `""` for `None`. */
  function Uploaded(at: Option<Timestamp>): string {
    match at
    case None => ""
    case Some(t) =>
      Pad(t.year, 4) + "-" + Pad(t.month, 2) + "-" + Pad(t.day, 2) + " "
      + Pad(t.hour, 2) + ":" + Pad(t.minute, 2)
  }

  /** The part of a timestamp that `uploaded` shows: everything down to the minute. */
  function MinuteOf(t: Timestamp): (int, int, int, int, int) {
    (t.year, t.month, t.day, t.hour, t.minute)
  }

  /** Reads a `YYYY-MM-DD HH:MM` string back into its five fields; `None` for any other layout. */
  function ParseUploaded(s: string): Option<(int, int, int, int, int)> {
    if |s| == 16 && s[4] == '-' && s[7] == '-' && s[10] == ' ' && s[13] == ':'
       && AllDigits(s[0..4]) && AllDigits(s[5..7]) && AllDigits(s[8..10])
       && AllDigits(s[11..13]) && AllDigits(s[14..16])
    then Some((DigitsValue(s[0..4]), DigitsValue(s[5..7]), DigitsValue(s[8..10]),
               DigitsValue(s[11..13]), DigitsValue(s[14..16])))
    else None
  }

  /** `uploaded` is the empty string exactly when there is no upload time. */
  lemma UploadedEmptyIffNone(at: Option<Timestamp>)
    ensures Uploaded(at) == "" <==> at.None?
  {
    if at.Some? {
      assert |Uploaded(at)| == 16;
    }
  }

  /**
   * The layout of a present `uploaded`: 16 characters, `-` at positions 4 and
   * 7, a space at 10, `:` at 13 and decimal digits everywhere else.
   */
  lemma UploadedLayout(t: Timestamp)
    ensures |Uploaded(Some(t))| == 16
    ensures Uploaded(Some(t))[4] == '-' && Uploaded(Some(t))[7] == '-'
    ensures Uploaded(Some(t))[10] == ' ' && Uploaded(Some(t))[13] == ':'
    ensures forall k :: 0 <= k < 16 && k != 4 && k != 7 && k != 10 && k != 13 ==> IsDigit(Uploaded(Some(t))[k])
  {
    var r := Uploaded(Some(t));
    assert r[0..4] == Pad(t.year, 4);
    assert r[5..7] == Pad(t.month, 2);
    assert r[8..10] == Pad(t.day, 2);
    assert r[11..13] == Pad(t.hour, 2);
    assert r[14..16] == Pad(t.minute, 2);
    forall k | 0 <= k < 16 && k != 4 && k != 7 && k != 10 && k != 13 ensures IsDigit(r[k]) {
      if k < 4 { assert r[k] == r[0..4][k]; }
      else if k < 7 { assert r[k] == r[5..7][k - 5]; }
      else if k < 10 { assert r[k] == r[8..10][k - 8]; }
      else if k < 13 { assert r[k] == r[11..13][k - 11]; }
      else { assert r[k] == r[14..16][k - 14]; }
    }
  }

  /** Reading `uploaded` back gives the timestamp's fields down to the minute. */
  lemma UploadedRoundTrip(t: Timestamp)
    ensures ParseUploaded(Uploaded(Some(t))) == Some(MinuteOf(t))
  {
    var r := Uploaded(Some(t));
    UploadedLayout(t);
    assert r[0..4] == Pad(t.year, 4);
    assert r[5..7] == Pad(t.month, 2);
    assert r[8..10] == Pad(t.day, 2);
    assert r[11..13] == Pad(t.hour, 2);
    assert r[14..16] == Pad(t.minute, 2);
    PadRoundTrip(t.year, 4);
    PadRoundTrip(t.month, 2);
    PadRoundTrip(t.day, 2);
    PadRoundTrip(t.hour, 2);
    PadRoundTrip(t.minute, 2);
  }

  /**
   * Seconds and smaller units are dropped: two timestamps give the same
   * `uploaded` exactly when they agree down to the minute.
   */
  lemma UploadedSameIffSameMinute(a: Timestamp, b: Timestamp)
    ensures Uploaded(Some(a)) == Uploaded(Some(b)) <==> MinuteOf(a) == MinuteOf(b)
  {
    if Uploaded(Some(a)) == Uploaded(Some(b)) {
      UploadedRoundTrip(a);
      UploadedRoundTrip(b);
    }
  }

  /** `PDFSerializer(pdf).data`. */
  function Serialize(p: PdfRecord): (r: Serialized) {
    [ ("id", IntValue(p.id)),
      ("title", StringValue(p.title)),
      ("file", FileValue(p.file)),
      ("uploaded_at", DateTimeValue(p.uploadedAt)),
      ("filename", StringValue(Filename(p.file))),
      ("uploaded", StringValue(Uploaded(p.uploadedAt))) ]
  }

  function Keys(r: Serialized): seq<string> {
    seq(|r|, i requires 0 <= i < |r| => r[i].0)
  }

  /** The value of the first field called `key`, if any. */
  function Lookup(r: Serialized, key: string): Option<FieldValue> {
    if r == [] then None else if r[0].0 == key then Some(r[0].1) else Lookup(r[1..], key)
  }

  /** The model row a serialized record was made from, taken from its four model fields. */
  function Deserialize(r: Serialized): Option<PdfRecord> {
    match (Lookup(r, "id"), Lookup(r, "title"), Lookup(r, "file"), Lookup(r, "uploaded_at"))
    case (Some(IntValue(id)), Some(StringValue(title)), Some(FileValue(file)), Some(DateTimeValue(at))) =>
      Some(PdfRecord(id, title, file, at))
    case _ => None
  }

  /**
   * The output has exactly the fields id, title, file, uploaded_at, filename,
   * uploaded, in that order; `filename` is the model's `filename()` and
   * `uploaded` is the formatted upload time.
   */
  lemma SerializeFields(p: PdfRecord)
    ensures Keys(Serialize(p)) == Fields
    ensures Lookup(Serialize(p), "filename") == Some(StringValue(Filename(p.file)))
    ensures Lookup(Serialize(p), "uploaded") == Some(StringValue(Uploaded(p.uploadedAt)))
  {
    var r := Serialize(p);
    assert Lookup(r, "filename") == Lookup(r[1..], "filename");
    assert Lookup(r[1..], "filename") == Lookup(r[2..], "filename") by { assert r[1..][1..] == r[2..]; }
    assert Lookup(r[2..], "filename") == Lookup(r[3..], "filename") by { assert r[2..][1..] == r[3..]; }
    assert Lookup(r[3..], "filename") == Lookup(r[4..], "filename") by { assert r[3..][1..] == r[4..]; }
    assert Lookup(r, "uploaded") == Lookup(r[1..], "uploaded");
    assert Lookup(r[1..], "uploaded") == Lookup(r[2..], "uploaded") by { assert r[1..][1..] == r[2..]; }
    assert Lookup(r[2..], "uploaded") == Lookup(r[3..], "uploaded") by { assert r[2..][1..] == r[3..]; }
    assert Lookup(r[3..], "uploaded") == Lookup(r[4..], "uploaded") by { assert r[3..][1..] == r[4..]; }
    assert Lookup(r[4..], "uploaded") == Lookup(r[5..], "uploaded") by { assert r[4..][1..] == r[5..]; }
  }

  /** Serialization keeps every model field: the row can be read back from its output. */
  lemma DeserializeSerialize(p: PdfRecord)
    ensures Deserialize(Serialize(p)) == Some(p)
  {
    var r := Serialize(p);
    assert Lookup(r, "id") == Some(IntValue(p.id));
    assert Lookup(r, "title") == Some(StringValue(p.title));
    assert Lookup(r, "file") == Some(FileValue(p.file)) by {
      assert Lookup(r, "file") == Lookup(r[1..], "file");
      assert Lookup(r[1..], "file") == Lookup(r[2..], "file") by { assert r[1..][1..] == r[2..]; }
      assert r[2..][0] == ("file", FileValue(p.file));
    }
    assert Lookup(r, "uploaded_at") == Some(DateTimeValue(p.uploadedAt)) by {
      assert Lookup(r, "uploaded_at") == Lookup(r[1..], "uploaded_at");
      assert r[1..][1..] == r[2..];
      assert Lookup(r[2..], "uploaded_at") == Lookup(r[3..], "uploaded_at") by { assert r[2..][1..] == r[3..]; }
    }
  }
}
