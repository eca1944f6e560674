/**
 * The chat page of the front end: a transcript of questions and answers and a
 * question box. Sending a question shows it at once with no answer yet, posts
 * it to `/api/chat/`, then either fills in the answer of that one message or,
 * when the request fails, takes the message back out and shows an error.
 */
module ChatPage {
  import opened Wrappers
  import opened Text

  /**
   * One exchange: the id given when it was sent (the clock in milliseconds),
   * the question as typed, the answer (empty while none has come), and the
   * ISO time of sending.
   */
  datatype ChatMessage = ChatMessage(id: int, query: string, response: string, timestamp: string)

  /**
   * How the chat request ended: with a JSON body, whose `answer` may be
   * missing, or with `fetch` or `res.json()` throwing.
   */
  datatype ChatReply = Replied(answer: Option<string>) | RequestFailed

  const NoAnswer: string := "Sorry, no answer found."

  const ResponseFailed: string := "Failed to get a response. Please try again."

  /** `data.answer || 'Sorry, no answer found.'`: never empty, and either the answer or the fallback. */
  function ResponseText(answer: Option<string>): (r: string)
    ensures r != ""
    ensures answer == Some(r) || r == NoAnswer
    ensures answer.Some? && answer.value != "" ==> r == answer.value
  {
    if answer.Some? && answer.value != "" then answer.value else NoAnswer
  }

  function Ids(ms: seq<ChatMessage>): set<int> {
    set i | 0 <= i < |ms| :: ms[i].id
  }

  /** No two messages share an id. */
  ghost predicate DistinctIds(ms: seq<ChatMessage>) {
    forall i, j :: 0 <= i < j < |ms| ==> ms[i].id != ms[j].id
  }

  /** A transcript as it stands between handlers: distinct ids, and every message answered. */
  ghost predicate Settled(ms: seq<ChatMessage>) {
    DistinctIds(ms) && forall i :: 0 <= i < |ms| ==> ms[i].response != ""
  }

  /** Adding an answered message under a fresh id keeps a transcript settled. */
  lemma SettledAppend(ms: seq<ChatMessage>, m: ChatMessage)
    requires Settled(ms) && m.id !in Ids(ms) && m.response != ""
    ensures Settled(ms + [m])
  {
    var s := ms + [m];
    forall i, j | 0 <= i < j < |s| ensures s[i].id != s[j].id {
      assert s[i] == ms[i];
      if j == |ms| {
        assert ms[i].id in Ids(ms);
      } else {
        assert s[j] == ms[j];
      }
    }
  }

  /**
   * `messages.map(msg => msg.id === id ? { ...msg, response } : msg)`: every
   * message with that id gets the response, every other one stays as it was,
   * in the same place.
   */
  function SetResponse(ms: seq<ChatMessage>, id: int, response: string): (out: seq<ChatMessage>)
    ensures |out| == |ms|
    ensures forall i :: 0 <= i < |ms| ==>
      out[i] == if ms[i].id == id then ms[i].(response := response) else ms[i]
  {
    if ms == [] then []
    else [if ms[0].id == id then ms[0].(response := response) else ms[0]]
         + SetResponse(ms[1..], id, response)
  }

  /** `messages.filter(msg => msg.id !== id)`: exactly the messages with another id are kept. */
  function RemoveById(ms: seq<ChatMessage>, id: int): (out: seq<ChatMessage>)
    ensures |out| <= |ms|
    ensures forall m :: m in out <==> m in ms && m.id != id
  {
    if ms == [] then []
    else (if ms[0].id == id then [] else [ms[0]]) + RemoveById(ms[1..], id)
  }

  /** Filtering a concatenation filters each part: the kept messages keep their order. */
  lemma {:induction false} RemoveByIdAppend(a: seq<ChatMessage>, b: seq<ChatMessage>, id: int)
    ensures RemoveById(a + b, id) == RemoveById(a, id) + RemoveById(b, id)
  {
    if a != [] {
      assert (a + b)[0] == a[0];
      assert (a + b)[1..] == a[1..] + b;
      RemoveByIdAppend(a[1..], b, id);
    } else {
      assert a + b == b;
    }
  }

  /** Filtering out an id no message has changes nothing. */
  lemma {:induction false} RemoveByIdAbsent(ms: seq<ChatMessage>, id: int)
    requires id !in Ids(ms)
    ensures RemoveById(ms, id) == ms
  {
    if ms != [] {
      assert ms[0].id in Ids(ms);
      assert Ids(ms[1..]) <= Ids(ms) by {
        forall x | x in Ids(ms[1..]) ensures x in Ids(ms) {
          var i :| 0 <= i < |ms[1..]| && ms[1..][i].id == x;
          assert ms[i + 1].id == x;
        }
      }
      RemoveByIdAbsent(ms[1..], id);
      assert ms == [ms[0]] + ms[1..];
    }
  }

  /** A failed request takes back exactly the message just added under a fresh id. */
  lemma RemoveOptimistic(ms: seq<ChatMessage>, m: ChatMessage)
    requires m.id !in Ids(ms)
    ensures RemoveById(ms + [m], m.id) == ms
  {
    RemoveByIdAppend(ms, [m], m.id);
    RemoveByIdAbsent(ms, m.id);
    assert [m][1..] == [];
  }

  /** A reply answers exactly the message just added under a fresh id, leaving all before it alone. */
  lemma SetResponseOptimistic(ms: seq<ChatMessage>, m: ChatMessage, response: string)
    requires m.id !in Ids(ms)
    ensures SetResponse(ms + [m], m.id, response) == ms + [m.(response := response)]
  {
    var s := ms + [m];
    forall i | 0 <= i < |ms| ensures s[i].id != m.id {
      assert s[i] == ms[i];
      assert ms[i].id in Ids(ms);
    }
  }

  class Chat {
    var messages: seq<ChatMessage>
    var query: string
    var loading: bool
    var error: string
    /** The questions posted to `/api/chat/`, oldest first. */
    var sent: seq<string>

    /**
     * Between two handlers nothing is loading, the transcript's ids are
     * distinct, and every message shown has its answer.
     */
    ghost predicate Valid()
      reads this
    {
      !loading && Settled(messages)
    }

    constructor ()
      ensures Valid()
      ensures messages == [] && query == "" && !loading && error == "" && sent == []
    {
      messages := [];
      query := "";
      loading := false;
      error := "";
      sent := [];
    }

    /** `isDisabled`: between handlers the send button is disabled exactly when the question trims to nothing. */
    function IsDisabled(): (disabled: bool)
      reads this
      ensures Valid() ==> (disabled <==> JsTrim(query) == "")
    {
      loading || JsTrim(query) == ""
    }

    /** The "Ask anything" placeholder: shown when the transcript is empty and nothing is loading. */
    function ShowsEmptyState(): (shown: bool)
      reads this
      ensures Valid() ==> (shown <==> messages == [])
    {
      messages == [] && !loading
    }

    /** Typing in the question box replaces the question and nothing else. */
    method EditQuery(value: string)
      requires Valid()
      modifies this
      ensures Valid()
      ensures query == value
      ensures messages == old(messages) && loading == old(loading) && error == old(error)
        && sent == old(sent)
    {
      query := value;
    }

    /**
     * `handleSubmit`, with `now` the fresh id of the message and `iso` its
     * time. A question that trims to nothing changes nothing and sends
     * nothing. Otherwise the error is cleared, the question box emptied, and
     * the question, untrimmed, is sent. On a reply the transcript is the old
     * one followed by the new message carrying its answer; on a failure it is
     * the old one, and the error is set.
     */
    method HandleSubmit(now: int, iso: string, reply: ChatReply)
      requires Valid()
      requires now !in Ids(messages)
      modifies this
      ensures Valid()
      ensures JsTrim(old(query)) == "" ==>
        messages == old(messages) && query == old(query) && error == old(error) && sent == old(sent)
      ensures JsTrim(old(query)) != "" ==>
        query == "" && sent == old(sent) + [old(query)]
        && (reply.Replied? ==>
              messages == old(messages) + [ChatMessage(now, old(query), ResponseText(reply.answer), iso)]
              && error == "")
        && (reply.RequestFailed? ==> messages == old(messages) && error == ResponseFailed)
    {
      if JsTrim(query) == "" {
        return;
      }
      loading := true;
      error := "";
      var optimistic := ChatMessage(now, query, "", iso);
      var before := messages;
      messages := messages + [optimistic];
      query := "";
      sent := sent + [optimistic.query];
      if reply.Replied? {
        var response := ResponseText(reply.answer);
        messages := SetResponse(messages, optimistic.id, response);
        SetResponseOptimistic(before, optimistic, response);
        SettledAppend(before, optimistic.(response := response));
      } else {
        error := ResponseFailed;
        messages := RemoveById(messages, optimistic.id);
        RemoveOptimistic(before, optimistic);
      }
      loading := false;
    }
  }
}
