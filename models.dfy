/**
 * The `PDF` model of the Django app: one uploaded document with its title, the
 * name under which storage keeps its file, and the time of upload; and the
 * model's `filename()` method, the last `/`-separated segment of that name.
 */
module Models {
  import opened Wrappers
  import opened Text

  /** Python's `datetime` fields. With `USE_TZ = True` Django keeps these in UTC. */
  datatype DateTime = DateTime(year: int, month: int, day: int,
                               hour: int, minute: int, second: int, microsecond: int)

  predicate IsLeapYear(y: int) {
    y % 4 == 0 && (y % 100 != 0 || y % 400 == 0)
  }

  function DaysInMonth(y: int, m: int): (n: int)
    requires 1 <= m <= 12
    ensures 28 <= n <= 31
  {
    if m == 2 then (if IsLeapYear(y) then 29 else 28)
    else if m == 4 || m == 6 || m == 9 || m == 11 then 30
    else 31
  }

  /** The range Python's `datetime` accepts (years 1 to 9999). */
  predicate ValidDateTime(t: DateTime) {
    1 <= t.year <= 9999 && 1 <= t.month <= 12 && 1 <= t.day <= DaysInMonth(t.year, t.month)
    && 0 <= t.hour < 24 && 0 <= t.minute < 60 && 0 <= t.second < 60
    && 0 <= t.microsecond < 1000000
  }

  /** A value Python's `datetime` can hold. */
  type Timestamp = t: DateTime | ValidDateTime(t) witness DateTime(1, 1, 1, 0, 0, 0, 0)

  /** `a < b` on datetimes: earlier in the lexicographic order of the fields. */
  predicate Before(a: DateTime, b: DateTime) {
    if a.year != b.year then a.year < b.year
    else if a.month != b.month then a.month < b.month
    else if a.day != b.day then a.day < b.day
    else if a.hour != b.hour then a.hour < b.hour
    else if a.minute != b.minute then a.minute < b.minute
    else if a.second != b.second then a.second < b.second
    else a.microsecond < b.microsecond
  }

  /** `FileField(upload_to="pdfs/")`: storage keeps every uploaded file under this directory. */
  const UploadTo: string := "pdfs/"

  /**
   * One row of the `PDF` table. `file` is the stored name relative to the media
   * root; `uploadedAt` is `auto_now_add`, and `None` stands for Python's `None`
   * on an instance that has not been saved.
   */
  datatype PdfRecord = PdfRecord(id: int, title: string, file: string, uploadedAt: Option<Timestamp>)

  /**
   * Python's `s.split(sep)` for a one-character separator: the pieces between
   * separators, in order, empty pieces included, never an empty list.
   */
  function Split(s: string, sep: char): (parts: seq<string>)
    ensures |parts| >= 1
    decreases |s|
  {
    var k := LastIndexOf(s, sep);
    if k < 0 then [s] else Split(s[..k], sep) + [s[k + 1..]]
  }

  /** `sep.join(parts)`. */
  function Join(parts: seq<string>, sep: char): string {
    if |parts| == 0 then ""
    else if |parts| == 1 then parts[0]
    else Join(parts[..|parts| - 1], sep) + [sep] + parts[|parts| - 1]
  }

  /** Splitting loses nothing: joining the pieces with the separator gives the string back. */
  lemma {:induction false} JoinSplit(s: string, sep: char)
    ensures Join(Split(s, sep), sep) == s
    decreases |s|
  {
    var k := LastIndexOf(s, sep);
    if k >= 0 {
      var front := Split(s[..k], sep);
      JoinSplit(s[..k], sep);
      var parts := front + [s[k + 1..]];
      assert parts[..|parts| - 1] == front;
      assert s == s[..k] + [sep] + s[k + 1..];
    }
  }

  /** No piece of a split contains the separator. */
  lemma {:induction false} SplitPiecesHaveNoSeparator(s: string, sep: char)
    ensures forall i :: 0 <= i < |Split(s, sep)| ==> sep !in Split(s, sep)[i]
    decreases |s|
  {
    var k := LastIndexOf(s, sep);
    if k >= 0 {
      SplitPiecesHaveNoSeparator(s[..k], sep);
      var last := s[k + 1..];
      assert forall j :: 0 <= j < |last| ==> last[j] == s[k + 1 + j];
    }
  }

  /** `PDF.filename()`: `self.file.name.split("/")[-1]`. */
  function Filename(name: string): string {
    var parts := Split(name, '/');
    parts[|parts| - 1]
  }

  /**
   * `filename()` is the tail of the name after its last `/`: it holds no `/`,
   * it is a suffix of the name, it is the whole name when there is no `/`, and
   * otherwise the name is some prefix, a `/`, then `filename()`.
   */
  lemma FilenameIsLastSegment(name: string)
    ensures '/' !in Filename(name)
    ensures |Filename(name)| <= |name| && name[|name| - |Filename(name)|..] == Filename(name)
    ensures '/' !in name ==> Filename(name) == name
    ensures '/' in name ==>
      |Filename(name)| < |name| &&
      name == name[..|name| - |Filename(name)| - 1] + "/" + Filename(name)
  {
    var k := LastIndexOf(name, '/');
    var f := Filename(name);
    if k < 0 {
      assert f == name;
    } else {
      assert f == name[k + 1..];
      assert forall j :: 0 <= j < |f| ==> f[j] == name[k + 1 + j];
      assert name == name[..k] + "/" + f;
    }
  }

  /** A name that ends in `/` has the empty string as its `filename()`. */
  lemma FilenameOfTrailingSlash(name: string)
    requires |name| > 0 && name[|name| - 1] == '/'
    ensures Filename(name) == ""
  {
    assert LastIndexOf(name, '/') == |name| - 1;
  }

  /** For a file stored directly under `pdfs/`, `filename()` is the name it was stored as. */
  lemma FilenameUnderUploadDir(x: string)
    requires '/' !in x
    ensures Filename(UploadTo + x) == x
  {
    var name := UploadTo + x;
    assert name[4] == '/';
    assert forall j :: 5 <= j < |name| ==> name[j] == x[j - 5];
    assert LastIndexOf(name, '/') == 4;
    assert name[5..] == x;
  }
}
