/**
 * The four API views over the `PDF` table: upload (create a row, then index its
 * file), list (every row, newest first), delete (the file and the row, or 404)
 * and ask (validate the question, then `ask_question`). The table is a map from
 * primary key to row; file storage is the set of stored names; the calls a
 * handler makes outside the table are recorded, in order, as effects.
 */
module Views {
  import opened Wrappers
  import opened Text
  import opened Models
  import opened Serializers
  import LangchainUtils

  /** The part of a multipart file upload the view looks at. */
  datatype UploadedFile = UploadedFile(name: string, contentType: string)

  /** Python truthiness of a form value: present and not the empty string. */
  predicate TextGiven(s: Option<string>): (given: bool)
    ensures s.None? ==> !given
    ensures s == Some("") ==> !given
    ensures s.Some? && s.value != "" ==> given
  {
    s.Some? && s.value != ""
  }

  /** Python truthiness of an uploaded file: Django's `File.__bool__` is `bool(self.name)`. */
  predicate FileGiven(f: Option<UploadedFile>): (given: bool)
    ensures f.None? ==> !given
    ensures f.Some? && f.value.name == "" ==> !given
    ensures f.Some? && f.value.name != "" ==> given
  {
    f.Some? && f.value.name != ""
  }

  datatype Body =
    | ErrorBody(message: string)
    | RecordBody(record: Serialized)
    | ListBody(records: seq<Serialized>)
    | AnswerBody(answer: string)
    | NoBody
    | ServerError

  datatype Response = Response(status: int, body: Body)

  /** What a handler does outside its response, in the order it does it. */
  datatype Effect =
    | RecordCreated(id: int)
    | PdfsIndexed(paths: seq<string>)
    | FileDeleted(name: string)
    | RecordDeleted(id: int)
    | QuestionAsked(query: string)

  const TitleAndFileRequired: string := "Title and file required"
  const PdfNotFound: string := "PDF not found"
  const QuestionRequired: string := "Question required"

  /** `os.path.join(root, name)` on POSIX for one relative or absolute name. */
  function JoinPath(root: string, name: string): (path: string)
    ensures |path| >= |name| && path[|path| - |name|..] == name
    ensures |name| > 0 && name[0] == '/' ==> path == name
    ensures !(|name| > 0 && name[0] == '/') ==>
      path[..|path| - |name|] == (if root == "" || root[|root| - 1] == '/' then root else root + "/")
  {
    if |name| > 0 && name[0] == '/' then name
    else if root == "" || root[|root| - 1] == '/' then root + name
    else root + "/" + name
  }

  /**
   * `order_by("-uploaded_at")` compares with this: `a` may come before `b`.
   * Later times come first; SQLite sorts a missing time as the smallest value,
   * so it comes last.
   */
  predicate NewerOrSame(a: Option<Timestamp>, b: Option<Timestamp>) {
    match (a, b)
    case (Some(x), Some(y)) => !Before(x, y)
    case (Some(_), None) => true
    case (None, Some(_)) => false
    case (None, None) => true
  }

  lemma NewerOrSameTotal(a: Option<Timestamp>, b: Option<Timestamp>)
    ensures NewerOrSame(a, b) || NewerOrSame(b, a)
  {
  }

  lemma NewerOrSameTransitive(a: Option<Timestamp>, b: Option<Timestamp>, c: Option<Timestamp>)
    requires NewerOrSame(a, b) && NewerOrSame(b, c)
    ensures NewerOrSame(a, c)
  {
  }

  predicate NewestFirst(rows: seq<PdfRecord>) {
    forall i, j :: 0 <= i < j < |rows| ==> NewerOrSame(rows[i].uploadedAt, rows[j].uploadedAt)
  }

  function IdSet(rows: seq<PdfRecord>): set<int> {
    set i | 0 <= i < |rows| :: rows[i].id
  }

  predicate DistinctIds(rows: seq<PdfRecord>) {
    forall i, j :: 0 <= i < j < |rows| ==> rows[i].id != rows[j].id
  }

  /**
   * `rows` is a listing of `table`: every row of the table exactly once, each
   * as stored, newest first.
   */
  predicate IsListing(table: map<int, PdfRecord>, rows: seq<PdfRecord>) {
    IdSet(rows) == table.Keys && DistinctIds(rows) && NewestFirst(rows)
    && (forall i :: 0 <= i < |rows| ==> rows[i].id in table && table[rows[i].id] == rows[i])
  }

  /** Where a row goes in a newest-first list: before the first row it is at least as new as. */
  function InsertPosition(rows: seq<PdfRecord>, r: PdfRecord): (p: nat)
    ensures p <= |rows|
    ensures forall i :: 0 <= i < p ==> !NewerOrSame(r.uploadedAt, rows[i].uploadedAt)
    ensures p < |rows| ==> NewerOrSame(r.uploadedAt, rows[p].uploadedAt)
  {
    if rows == [] || NewerOrSame(r.uploadedAt, rows[0].uploadedAt) then 0
    else 1 + InsertPosition(rows[1..], r)
  }

  /** Inserting at that position keeps a newest-first list newest first. */
  lemma InsertKeepsNewestFirst(rows: seq<PdfRecord>, r: PdfRecord)
    requires NewestFirst(rows)
    ensures var p := InsertPosition(rows, r); NewestFirst(rows[..p] + [r] + rows[p..])
  {
    var p := InsertPosition(rows, r);
    var s := rows[..p] + [r] + rows[p..];
    forall i, j | 0 <= i < j < |s| ensures NewerOrSame(s[i].uploadedAt, s[j].uploadedAt) {
      if j < p {
        assert s[i] == rows[i] && s[j] == rows[j];
      } else if j == p {
        assert s[i] == rows[i] && s[j] == r;
        NewerOrSameTotal(r.uploadedAt, rows[i].uploadedAt);
      } else if i < p {
        assert s[i] == rows[i] && s[j] == rows[j - 1];
        NewerOrSameTotal(r.uploadedAt, rows[i].uploadedAt);
        if p < j - 1 {
          assert NewerOrSame(r.uploadedAt, rows[p].uploadedAt);
          NewerOrSameTransitive(r.uploadedAt, rows[p].uploadedAt, rows[j - 1].uploadedAt);
        }
        NewerOrSameTransitive(rows[i].uploadedAt, r.uploadedAt, rows[j - 1].uploadedAt);
      } else if i == p {
        assert s[i] == r && s[j] == rows[j - 1];
        if p < j - 1 {
          NewerOrSameTransitive(r.uploadedAt, rows[p].uploadedAt, rows[j - 1].uploadedAt);
        }
      } else {
        assert s[i] == rows[i - 1] && s[j] == rows[j - 1];
      }
    }
  }

  /** Inserting a row with a new id adds exactly that id and keeps the ids distinct. */
  lemma InsertIds(rows: seq<PdfRecord>, r: PdfRecord, p: nat)
    requires p <= |rows| && DistinctIds(rows) && r.id !in IdSet(rows)
    ensures var s := rows[..p] + [r] + rows[p..];
      IdSet(s) == IdSet(rows) + {r.id} && DistinctIds(s)
      && forall i :: 0 <= i < |s| ==> s[i] == r || s[i] in rows
  {
    var s := rows[..p] + [r] + rows[p..];
    forall i | 0 <= i < |s| ensures s[i] == (if i < p then rows[i] else if i == p then r else rows[i - 1]) {
    }
    forall x | x in IdSet(rows) + {r.id} ensures x in IdSet(s) {
      if x != r.id {
        var i :| 0 <= i < |rows| && rows[i].id == x;
        if i < p { assert s[i].id == x; } else { assert s[i + 1].id == x; }
      } else {
        assert s[p].id == x;
      }
    }
    forall i, j | 0 <= i < j < |s| ensures s[i].id != s[j].id {
      if i != p && j != p {
        assert s[i] == rows[if i < p then i else i - 1];
      } else if i == p {
        assert s[j].id in IdSet(rows);
      } else {
        assert s[i].id in IdSet(rows);
      }
    }
  }

  function SerializeAll(rows: seq<PdfRecord>): seq<Serialized> {
    seq(|rows|, i requires 0 <= i < |rows| => Serialize(rows[i]))
  }

  class Backend {
    /** `settings.MEDIA_ROOT`: where storage keeps files on disk. */
    const mediaRoot: string
    /** The `PDF` table, by primary key. */
    var table: map<int, PdfRecord>
    /** The names storage currently holds. */
    var files: set<string>
    /** The next primary key: the SQLite backend's `AUTOINCREMENT` never reuses one. */
    var nextId: int
    /** Every call made outside the table, oldest first. */
    var effects: seq<Effect>

    /**
     * Every row sits under its own key, which is below `nextId`, has its file in
     * storage and an upload time; no two rows share a file.
     */
    ghost predicate Valid()
      reads this
    {
      nextId >= 1
      && (forall k :: k in table ==>
            1 <= k < nextId && table[k].id == k && table[k].file in files && table[k].uploadedAt.Some?)
      && (forall k1, k2 :: k1 in table && k2 in table && k1 != k2 ==> table[k1].file != table[k2].file)
    }

    constructor (mediaRoot: string)
      ensures Valid()
      ensures this.mediaRoot == mediaRoot
      ensures table == map[] && files == {} && nextId == 1 && effects == []
    {
      this.mediaRoot := mediaRoot;
      table := map[];
      files := {};
      nextId := 1;
      effects := [];
    }

    /**
     * `PDFUploadView.post`. A missing or empty title or file gives 400 and
     * changes nothing. Otherwise one row is created with the next key, the file
     * stored as `pdfs/<storedAs>` (the name storage picks) and the time `now`;
     * then `store_pdfs` is called on its path; then 201 with the row serialized.
     * If indexing raises, the row and the file stay and the answer is 500.
     */
    method Upload(title: Option<string>, file: Option<UploadedFile>, storedAs: string,
                  now: Timestamp, indexingFails: bool)
      returns (resp: Response)
      requires Valid()
      requires storedAs != "" && '/' !in storedAs && UploadTo + storedAs !in files
      modifies this
      ensures Valid()
      ensures !(TextGiven(title) && FileGiven(file)) ==>
        resp == Response(400, ErrorBody(TitleAndFileRequired))
        && table == old(table) && files == old(files) && nextId == old(nextId) && effects == old(effects)
      ensures TextGiven(title) && FileGiven(file) ==>
        var id := old(nextId);
        var row := PdfRecord(id, title.value, UploadTo + storedAs, Some(now));
        id !in old(table) && table == old(table)[id := row]
        && files == old(files) + {row.file} && nextId == id + 1
        && effects == old(effects) + [RecordCreated(id), PdfsIndexed([JoinPath(mediaRoot, row.file)])]
        && Filename(row.file) == storedAs
        && resp == (if indexingFails then Response(500, ServerError)
                    else Response(201, RecordBody(Serialize(row))))
    {
      if !(TextGiven(title) && FileGiven(file)) {
        return Response(400, ErrorBody(TitleAndFileRequired));
      }
      var id := nextId;
      var row := PdfRecord(id, title.value, UploadTo + storedAs, Some(now));
      table := table[id := row];
      files := files + {row.file};
      nextId := nextId + 1;
      effects := effects + [RecordCreated(id)];
      var path := JoinPath(mediaRoot, row.file);
      effects := effects + [PdfsIndexed([path])];
      FilenameUnderUploadDir(storedAs);
      if indexingFails {
        return Response(500, ServerError);
      }
      resp := Response(201, RecordBody(Serialize(row)));
    }

    /** `PDF.objects.all().order_by("-uploaded_at")`: every row once, newest first. */
    method OrderedRecords() returns (rows: seq<PdfRecord>)
      requires Valid()
      ensures IsListing(table, rows)
    {
      rows := [];
      var id := 1;
      while id < nextId
        invariant 1 <= id <= nextId
        invariant IdSet(rows) == set k | k in table && k < id
        invariant DistinctIds(rows) && NewestFirst(rows)
        invariant forall i :: 0 <= i < |rows| ==> rows[i].id in table && table[rows[i].id] == rows[i]
      {
        if id in table {
          var row := table[id];
          var p := InsertPosition(rows, row);
          InsertKeepsNewestFirst(rows, row);
          InsertIds(rows, row, p);
          rows := rows[..p] + [row] + rows[p..];
        }
        id := id + 1;
      }
      assert (set k | k in table && k < nextId) == table.Keys;
    }

    /** `ListPDFView.get`: 200 with every row serialized, newest first. */
    method List() returns (resp: Response)
      requires Valid()
      ensures exists rows :: IsListing(table, rows) && resp == Response(200, ListBody(SerializeAll(rows)))
    {
      var rows := OrderedRecords();
      resp := Response(200, ListBody(SerializeAll(rows)));
    }

    /**
     * `DeletePDFView.delete`. An existing key: its file is removed from storage,
     * then its row, and the answer is 204; nothing else changes and the vector
     * store is not touched. An absent key: 404 and nothing changes.
     */
    method Delete(pk: int) returns (resp: Response)
      requires Valid()
      modifies this
      ensures Valid() && nextId == old(nextId)
      ensures pk in old(table) ==>
        var name := old(table)[pk].file;
        table == old(table) - {pk} && files == old(files) - {name}
        && effects == old(effects) + [FileDeleted(name), RecordDeleted(pk)]
        && resp == Response(204, NoBody)
      ensures pk !in old(table) ==>
        table == old(table) && files == old(files) && effects == old(effects)
        && resp == Response(404, ErrorBody(PdfNotFound))
    {
      if pk !in table {
        return Response(404, ErrorBody(PdfNotFound));
      }
      var name := table[pk].file;
      files := files - {name};
      effects := effects + [FileDeleted(name)];
      table := table - {pk};
      effects := effects + [RecordDeleted(pk)];
      resp := Response(204, NoBody);
    }

    /**
     * `AskQuestionView.post`. A missing or empty question gives 400 and
     * `ask_question` is not called; any other question, whitespace-only ones
     * included, is passed to it. If the retriever or the model raises
     * (`askingFails`), the exception leaves the view and the answer is 500;
     * otherwise 200 with the stripped model reply.
     */
    method Ask(question: Option<string>, retrieve: string -> seq<string>, llm: string -> string,
               askingFails: bool)
      returns (resp: Response)
      modifies this`effects
      ensures !TextGiven(question) ==>
        resp == Response(400, ErrorBody(QuestionRequired)) && effects == old(effects)
      ensures TextGiven(question) ==>
        var q := question.value;
        effects == old(effects) + [QuestionAsked(q)]
        && resp == (if askingFails then Response(500, ServerError)
                    else Response(200, AnswerBody(PyStrip(llm(LangchainUtils.Prompt(LangchainUtils.Context(retrieve(q)), q))))))
    {
      if !TextGiven(question) {
        return Response(400, ErrorBody(QuestionRequired));
      }
      effects := effects + [QuestionAsked(question.value)];
      if askingFails {
        return Response(500, ServerError);
      }
      var answer := LangchainUtils.AskQuestion(question.value, retrieve, llm);
      resp := Response(200, AnswerBody(answer));
    }
  }
}
