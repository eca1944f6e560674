# PDF RAG chatbot: a verified model of its request rules and page handlers

This project models the working core of a PDF question-answering application
in Dafny.

The backend is a Django REST app with one table of uploaded PDFs. It has four
views:

- **upload** validates the form, creates a row and indexes the file in a vector store;
- **list** returns every row, newest first;
- **delete** removes the file and the row, or answers 404;
- **ask** validates a question and answers it with retrieval-augmented generation.

`ask_question` turns the top three retrieved documents into a numbered,
truncated context block and puts it into a fixed prompt. It then strips the
language model's reply.

The React front end has three components whose handlers change component state
step by step:

- the **upload dialog** checks the file type, derives a title from the file name, and validates and posts the form;
- the **chat page** adds a question to the transcript optimistically, then fills in the answer by message id or removes the message on failure;
- the **dashboard** fetches the list, deletes behind a confirmation dialog, and picks the loading, empty or card view.

Layout, one Dafny module per file:

| file | module | models | form |
|---|---|---|---|
| `text.dfy` | `Text` | Python `str.strip`, `s[:n]`, `str(n)`, zero padding; JavaScript `trim`, `lastIndexOf`, `substring` | functions and lemmas |
| `models.dfy` | `Models` | the `PDF` row, datetimes, `str.split`, `filename()` | functions and lemmas |
| `serializers.dfy` | `Serializers` | `PDFSerializer`: field order, `filename`, `uploaded` | functions and lemmas |
| `langchain_utils.dfy` | `LangchainUtils` | `ask_question`: the context loop, the prompt, the stripped answer | a method with a loop, functions and lemmas |
| `views.dfy` | `Views` | the four views over a table `map<int, PdfRecord>` | class `Backend` |
| `upload_modal.dfy` | `UploadModal` | the upload dialog | class `UploadForm` |
| `chat_page.dfy` | `ChatPage` | the chat page | class `Chat` |
| `dashboard.dfy` | `Dashboard` | the dashboard | class `DashboardPage` |
| `wrappers.dfy` | `Wrappers` | `Option` | datatype |

How the pieces outside the core are represented:

- **Retriever and language model:** function parameters `retrieve: string -> seq<string>` and `llm: string -> string`. Whether either raises is the parameter `askingFails` of the ask view.
- **Indexing call `store_pdfs`:** an effect recorded in order, plus a flag saying whether it raised.
- **Front-end network requests:** recorded as effects, with their outcome as a parameter of the handler.
- **Storage name:** the name storage picks for an uploaded file is the parameter `storedAs`.
- **Time:** the clock is the parameter `now`.
- **Chat message id:** `Date.now()` is the parameter `now`, with a precondition that it is fresh.

## Model

| member | source | states |
|---|---|---|
| Text.StripIsSlice | rag_pdf_chatbot/api/langchain_utils.py:58 | `strip()` returns the slice `s[i..j]` such that everything before `i` and from `j` on is whitespace, and the result neither starts nor ends with whitespace |
| Text.StripEmptyIff | frontend/src/components/UploadModal.tsx:110 | trimming gives the empty string exactly when every character is whitespace, so a whitespace-only title or question is rejected |
| Text.Truncate | rag_pdf_chatbot/api/langchain_utils.py:42 | `s[:n]` is a prefix of `s` of length `min(len(s), n)` |
| Text.Decimal | rag_pdf_chatbot/api/langchain_utils.py:42 | `str(i)` is a non-empty string of digits with no leading zero |
| Text.DecimalRoundTrip | rag_pdf_chatbot/api/langchain_utils.py:42 | reading the digits of `str(i)` back gives `i` |
| Text.Pad | rag_pdf_chatbot/api/serializers.py:17 | a `%04d`/`%02d` field has exactly its width and only digits |
| Text.PadRoundTrip | rag_pdf_chatbot/api/serializers.py:17 | reading a zero-padded field back gives the number |
| Text.LastIndexOf | frontend/src/components/UploadModal.tsx:96 | `lastIndexOf` is -1 or a position holding the character, with no occurrence after it |
| Text.Substring | frontend/src/components/UploadModal.tsx:96 | `substring(a, b)` is the slice `s[a..b]` for bounds in range, and `""` when both bounds are at most 0 |
| Models.JoinSplit | rag_pdf_chatbot/api/models.py:9 | `split("/")` loses nothing: joining the pieces with `/` gives the name back |
| Models.SplitPiecesHaveNoSeparator | rag_pdf_chatbot/api/models.py:9 | no piece of `split("/")` contains `/` |
| Models.FilenameIsLastSegment | rag_pdf_chatbot/api/models.py:8-9 | `filename()` has no `/` and is a suffix of the name; it is the whole name when there is no `/`; otherwise the name is a prefix, `/`, then `filename()` |
| Models.FilenameOfTrailingSlash | rag_pdf_chatbot/api/models.py:9 | a name ending in `/` has `filename()` equal to `""` |
| Models.FilenameUnderUploadDir | rag_pdf_chatbot/api/models.py:5-9 | for `pdfs/x` with no `/` in `x`, `filename()` is `x` |
| Serializers.UploadedEmptyIffNone | rag_pdf_chatbot/api/serializers.py:17 | `uploaded` is `""` exactly when `uploaded_at` is null |
| Serializers.UploadedLayout | rag_pdf_chatbot/api/serializers.py:17 | otherwise `uploaded` is 16 characters, with `-` at 4 and 7, a space at 10, `:` at 13, and digits elsewhere |
| Serializers.UploadedRoundTrip | rag_pdf_chatbot/api/serializers.py:17 | `uploaded` parses back to year, month, day, hour and minute |
| Serializers.UploadedSameIffSameMinute | rag_pdf_chatbot/api/serializers.py:17 | two times format identically exactly when they agree down to the minute |
| Serializers.SerializeFields | rag_pdf_chatbot/api/serializers.py:10-17 | the output fields are id, title, file, uploaded_at, filename, uploaded, in that order; `filename` is the model's `filename()`; `uploaded` is the formatted time |
| Serializers.DeserializeSerialize | rag_pdf_chatbot/api/serializers.py:10 | the row can be read back from its four model fields |
| LangchainUtils.BuildContext | rag_pdf_chatbot/api/langchain_utils.py:40-42 | the loop builds the numbered entries of `docs[:3]`, concatenated in order |
| LangchainUtils.ContextIgnoresLaterDocuments | rag_pdf_chatbot/api/langchain_utils.py:41 | documents past the third never change the context |
| LangchainUtils.ContextEmptyIff | rag_pdf_chatbot/api/langchain_utils.py:40-42 | the context is empty exactly when the retriever returned nothing |
| LangchainUtils.EntriesOfPrefix | rag_pdf_chatbot/api/langchain_utils.py:40-42 | the entries of the first `j` documents are a prefix of the entries of all of them |
| LangchainUtils.EntriesPrefix | rag_pdf_chatbot/api/langchain_utils.py:41-42 | entry `[i+1]` of document `i` follows the entries of the documents before it |
| LangchainUtils.ContextEntry | rag_pdf_chatbot/api/langchain_utils.py:41-42 | each of the first three documents has its numbered entry at its place in the context |
| LangchainUtils.ContextOfThree | rag_pdf_chatbot/api/langchain_utils.py:41-42 | with three or more documents the context is exactly entries `[1]`, `[2]`, `[3]` |
| LangchainUtils.EntryLayout | rag_pdf_chatbot/api/langchain_utils.py:42 | an entry is `[`, the number, `] `, then a prefix of the stripped text of length `min(len, 300)`, then `...\n` |
| LangchainUtils.PromptLayout | rag_pdf_chatbot/api/langchain_utils.py:45-57 | the prompt holds the not-found instruction, then the context verbatim, then `Question: ` and the query verbatim, then the answer cue |
| LangchainUtils.AskQuestion | rag_pdf_chatbot/api/langchain_utils.py:34-59 | the answer is the model's reply to the prompt built from the query and its retrieval, with the whitespace at both ends removed |
| Views.TextGiven | rag_pdf_chatbot/api/views.py:18 | Python truthiness of a form value: a missing value and `""` are falsy, any other string is truthy |
| Views.FileGiven | rag_pdf_chatbot/api/views.py:18 | truthiness of an uploaded file (`File.__bool__` is `bool(name)`): a missing file and a file with an empty name are falsy, any other is truthy |
| Views.JoinPath | rag_pdf_chatbot/api/views.py:22 | POSIX `os.path.join(MEDIA_ROOT, name)` ends with the name; an absolute name replaces the root; otherwise the root comes first, followed by `/` unless it is empty or already ends in `/` |
| Views.NewerOrSameTotal | rag_pdf_chatbot/api/views.py:28 | any two upload times are comparable in the listing order |
| Views.NewerOrSameTransitive | rag_pdf_chatbot/api/views.py:28 | the listing order is transitive |
| Views.InsertPosition | rag_pdf_chatbot/api/views.py:28 | a row's place in a newest-first list: after every row strictly newer, before the first that is not |
| Views.InsertKeepsNewestFirst | rag_pdf_chatbot/api/views.py:28 | inserting at that place keeps the list newest first |
| Views.InsertIds | rag_pdf_chatbot/api/views.py:28 | inserting a row with a new id adds exactly that id and keeps ids distinct |
| Views.Backend.Upload | rag_pdf_chatbot/api/views.py:14-24 | a missing or empty title or file gives 400 and changes nothing; otherwise exactly one row is added under a new key, then indexing is called on its path, then 201 with its serialization (500 with the row kept if indexing raises) |
| Views.Backend.OrderedRecords | rag_pdf_chatbot/api/views.py:28 | every row of the table exactly once, as stored, newest first, missing times last |
| Views.Backend.List | rag_pdf_chatbot/api/views.py:26-29 | 200 with every row serialized in that order |
| Views.Backend.Delete | rag_pdf_chatbot/api/views.py:32-39 | an existing key removes its file and then exactly its row and gives 204, with no call to the vector store; an absent key gives 404 and changes nothing |
| Views.Backend.Ask | rag_pdf_chatbot/api/views.py:41-47 | a missing or empty question gives 400 without calling `ask_question`; any other one, whitespace-only included, is passed on and gives 200 with the stripped answer, or 500 when the retriever or the model raises |
| UploadModal.DeriveTitle | frontend/src/components/UploadModal.tsx:95-96 | the derived title is a prefix of the file name, and empty only for an empty name |
| UploadModal.DeriveTitleNoDot | frontend/src/components/UploadModal.tsx:96 | a name without `.` is its own title |
| UploadModal.DeriveTitleLeadingDot | frontend/src/components/UploadModal.tsx:96 | a name whose only `.` is its first character is its own title |
| UploadModal.DeriveTitleDropsExtension | frontend/src/components/UploadModal.tsx:96 | otherwise the title is the name before its last `.` |
| UploadModal.UploadForm.IsDisabled | frontend/src/components/UploadModal.tsx:188 | between handlers the upload button is disabled exactly when no file is held |
| UploadModal.UploadForm.EditTitle | frontend/src/components/UploadModal.tsx:214 | typing replaces the title and nothing else |
| UploadModal.UploadForm.HandleFileChange | frontend/src/components/UploadModal.tsx:86-102 | an empty selection changes nothing; a non-PDF sets "Please select a PDF file", drops the file and keeps the title; a PDF is kept, clears the error and fills the title only when it is `""` |
| UploadModal.UploadForm.HandleSubmit | frontend/src/components/UploadModal.tsx:104-128 | no file gives the file error first, a title that trims to nothing the title error, and neither posts; otherwise the untrimmed title is posted and, on success, the parent is told and the dialog closes, on failure the upload error is set; not uploading afterwards |
| ChatPage.ResponseText | frontend/src/pages/ChatPage.tsx:151 | the shown response is never empty: a non-empty `answer` is shown as it came, and "Sorry, no answer found." replaces a missing or empty one |
| ChatPage.SetResponse | frontend/src/pages/ChatPage.tsx:149-153 | every message with the id gets the response; every other message is unchanged and in place |
| ChatPage.RemoveById | frontend/src/pages/ChatPage.tsx:156 | exactly the messages with another id are kept |
| ChatPage.RemoveByIdAppend | frontend/src/pages/ChatPage.tsx:156 | filtering distributes over concatenation, so the kept messages keep their order |
| ChatPage.RemoveByIdAbsent | frontend/src/pages/ChatPage.tsx:156 | filtering out an id no message has changes nothing |
| ChatPage.RemoveOptimistic | frontend/src/pages/ChatPage.tsx:155-156 | a failure removes exactly the message just added under a fresh id |
| ChatPage.SetResponseOptimistic | frontend/src/pages/ChatPage.tsx:149-153 | a reply answers exactly the message just added under a fresh id |
| ChatPage.Chat.IsDisabled | frontend/src/pages/ChatPage.tsx:186 | between handlers the send button is disabled exactly when the query trims to nothing |
| ChatPage.Chat.ShowsEmptyState | frontend/src/pages/ChatPage.tsx:197 | between handlers the placeholder shows exactly when the transcript is empty |
| ChatPage.Chat.EditQuery | frontend/src/pages/ChatPage.tsx:239 | typing replaces the query and nothing else |
| ChatPage.Chat.HandleSubmit | frontend/src/pages/ChatPage.tsx:126-160 | a query that trims to nothing changes nothing and sends nothing; otherwise the untrimmed query is sent and the box cleared; a reply leaves the old transcript plus the new message with its answer, a failure leaves the old transcript and sets the error; ids stay distinct and loading ends |
| Dashboard.WithoutId | frontend/src/pages/Dashboard.tsx:167 | exactly the cards with another id are kept |
| Dashboard.WithoutIdAppend | frontend/src/pages/Dashboard.tsx:167 | filtering distributes over concatenation, so the kept cards keep their order |
| Dashboard.WithoutIdAbsent | frontend/src/pages/Dashboard.tsx:167 | filtering out an id no card has changes nothing |
| Dashboard.WithoutIdOfOne | frontend/src/pages/Dashboard.tsx:167 | deleting the card with a unique id leaves the cards before and after it in order |
| Dashboard.WithoutIdIdempotent | frontend/src/pages/Dashboard.tsx:167 | filtering twice by an id is filtering once |
| Dashboard.DashboardPage.DocumentsSection | frontend/src/pages/Dashboard.tsx:289-326 | the loading notice exactly while loading, the empty notice exactly when not loading and the list is empty, otherwise the cards in list order |
| Dashboard.DashboardPage.ShowsConfirmDialog | frontend/src/pages/Dashboard.tsx:333 | the confirmation dialog shows exactly when a non-zero id awaits confirmation: a pending id of 0 is falsy and hides it |
| Dashboard.DashboardPage.FetchPdfs | frontend/src/pages/Dashboard.tsx:149-161 | a reply replaces the list and clears the error; a failure keeps the list and sets the fetch error; loading is over on every path |
| Dashboard.DashboardPage.HandleDelete | frontend/src/pages/Dashboard.tsx:163-174 | a request that came back, with any status, removes every card with the id, keeps the rest in order and clears `deleteConfirmId`; a thrown request keeps the list and sets the delete error; not deleting on every path |
| Dashboard.DashboardPage.RequestDelete | frontend/src/pages/Dashboard.tsx:318 | a card's delete button asks to confirm that card and changes nothing else |
| Dashboard.DashboardPage.CancelDelete | frontend/src/pages/Dashboard.tsx:342 | cancel drops the pending deletion and hides the dialog |
| Dashboard.DashboardPage.OpenUpload | frontend/src/pages/Dashboard.tsx:272 | "Upload PDF" opens the upload dialog |
| Dashboard.DashboardPage.CloseUpload | frontend/src/pages/Dashboard.tsx:331 | closing the upload dialog hides it and fetches the list again |

## Left out

- The external libraries are not modelled; the retriever and the model are uninterpreted functions. This covers LangChain, Chroma, the HuggingFace embeddings, PyPDFLoader, the text splitter and the Groq model, which do floating-point similarity search and PDF parsing. Chunk size 500 and overlap 50 are therefore not modelled.
- `store_pdfs` is an opaque effect `PdfsIndexed(paths)`. Whether it raises is the parameter `indexingFails`. What it does to the vector store is not modelled.
- LangchainUtils.AskQuestion: covers only the case where the retriever and the model return. A raise from either leaves `ask_question` and becomes the 500 that Views.Backend.Ask models with `askingFails`.
- The vector store is not modelled, for these reasons:
  - the chat request carries no document id, so retrieval runs over the whole store;
  - delete does not purge the index.
- Django's ORM, file storage and HTTP responses are not modelled as such. The table is a map, storage is a set of names, and a response is a status and a body value.
- How storage picks the stored name of an upload is not modelled; the name is the parameter `storedAs`, which must be fresh and contain no `/`. The file's bytes are not modelled either.
- The DRF rendering of `file` as a URL and of `uploaded_at` as an ISO 8601 string is not modelled. Those fields keep the stored name and the time value.
- Serializers.Uploaded: the year is always padded to four digits. glibc's `%Y` does not pad years below 1000; such dates do not arise from `auto_now_add`.
- Serializers.Uploaded: the time is formatted in UTC. With `USE_TZ = True`, `uploaded_at` is an aware UTC datetime, and `strftime` does not convert it to the `Asia/Kolkata` `TIME_ZONE` of the settings.
- The `max_length=255` of the title is a database-level constraint. The upload view does not check it, and it is not modelled.
- Strings are sequences of Unicode scalar values. JavaScript strings are UTF-16, so for `lastIndexOf` and `substring` on names outside the Basic Multilingual Plane, positions differ from the browser's.
- Front-end handlers are single sequential transitions. These are not modelled:
  - async interleaving;
  - overlapping submissions;
  - React's batching of state updates;
  - the intermediate render while a request is pending (`uploading`, `loading` and `deleting` being true).
- JSON bodies that are not of the expected shape are not modelled, for example a non-string `answer` or a listing that is not an array of cards.
- The browser's native `required` check on the dialog's inputs runs before `handleSubmit`. It is not modelled; the handler's own checks are.
- Styling, hover and focus handlers, scrolling, navigation, routing (`urls.py`, `App.tsx`), `settings.py` and the unused `types/index.ts` are not modelled.
- The listing order among rows with equal upload times is not fixed, because the database leaves it unspecified. Backend.OrderedRecords promises only newest first.
- Input checks the code does not make, and so the model does not make either:
  - the upload view rejects only a missing or empty title, so a title of spaces is accepted;
  - the upload view does not look at the file's content type;
  - the ask view accepts a whitespace-only question.
