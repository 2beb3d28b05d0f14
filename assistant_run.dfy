/**
 * The back half of graph generation, with the assistant service reduced to
 * its answers: the statuses that successive run fetches return, and the
 * thread's messages in ascending order.
 */
module AssistantRun {
  import opened Results
  import opened GraphData

  /** The statuses a run reports. */
  datatype RunStatus =
    | Queued | InProgress | RequiresAction | Cancelling
    | Cancelled | Failed | Completed | Incomplete | Expired

  /** `RunStatus.IsTerminal`: the run will not move on from this status. */
  predicate IsTerminal(s: RunStatus) {
    s.Completed? || s.Expired? || s.Failed? || s.Cancelled? || s.Incomplete?
  }

  /** Some fetch eventually reports a terminal status. */
  predicate EventuallyTerminal(statuses: seq<RunStatus>) {
    exists k :: 0 <= k < |statuses| && IsTerminal(statuses[k])
  }

  /** The position of the first terminal status. */
  function FirstTerminal(statuses: seq<RunStatus>): (k: nat)
    requires EventuallyTerminal(statuses)
    ensures k < |statuses| && IsTerminal(statuses[k])
    ensures forall j :: 0 <= j < k ==> !IsTerminal(statuses[j])
  {
    if IsTerminal(statuses[0]) then 0
    else
      assert EventuallyTerminal(statuses[1..]) by {
        var k :| 0 <= k < |statuses| && IsTerminal(statuses[k]);
        assert statuses[1..][k - 1] == statuses[k];
      }
      1 + FirstTerminal(statuses[1..])
  }

  /**
   * The `do { delay; fetch } while (!IsTerminal)` loop. `statuses[i]` is what
   * fetch i + 1 returns; the status the run was created with is never
   * inspected, so at least one fetch happens. Returns the last status and the
   * number of fetches.
   */
  method PollRun(statuses: seq<RunStatus>) returns (last: RunStatus, fetches: nat)
    requires EventuallyTerminal(statuses)
    ensures 1 <= fetches <= |statuses|
    ensures last == statuses[fetches - 1] && IsTerminal(last)
    ensures forall j :: 0 <= j < fetches - 1 ==> !IsTerminal(statuses[j])
    ensures fetches == FirstTerminal(statuses) + 1
  {
    last := statuses[0];
    fetches := 1;
    while !IsTerminal(last)
      invariant 1 <= fetches <= |statuses|
      invariant last == statuses[fetches - 1]
      invariant forall j :: 0 <= j < fetches - 1 ==> !IsTerminal(statuses[j])
      decreases |statuses| - fetches
    {
      last := statuses[fetches];
      fetches := fetches + 1;
    }
  }

  /** The author of a message. */
  datatype MessageRole = User | Assistant

  /** A citation on a piece of text; its file ids are only reported, never fetched. */
  datatype TextAnnotation = TextAnnotation(inputFileId: Option<string>, outputFileId: Option<string>)

  /** One content item of a message: text with annotations, an image reference, or both empty. */
  datatype MessageContent = MessageContent(
    text: Option<string>,
    annotations: seq<TextAnnotation>,
    imageFileId: Option<string>)

  datatype ThreadMessage = ThreadMessage(role: MessageRole, content: seq<MessageContent>)

  /** `string.IsNullOrEmpty`. */
  predicate IsNullOrEmpty(s: Option<string>) {
    s.None? || s.value == []
  }

  /** The image file ids of a message's content items, in item order, skipping null or empty ones. */
  function ContentImageIds(items: seq<MessageContent>): seq<string> {
    if items == [] then []
    else
      var last := items[|items| - 1];
      ContentImageIds(items[..|items| - 1]) + (if IsNullOrEmpty(last.imageFileId) then [] else [last.imageFileId.value])
  }

  /** The image file ids of the messages: message by message, then item by item. */
  function ImageFileIds(messages: seq<ThreadMessage>): seq<string> {
    if messages == [] then []
    else ImageFileIds(messages[..|messages| - 1]) + ContentImageIds(messages[|messages| - 1].content)
  }

  /**
   * The nested walk over the messages and their content items; each image
   * file id met is fetched (metadata, then bytes) in the order it is met.
   * Returns the ids fetched, in order.
   */
  method DownloadImages(messages: seq<ThreadMessage>) returns (downloaded: seq<string>)
    ensures downloaded == ImageFileIds(messages)
  {
    downloaded := [];
    var i := 0;
    while i < |messages|
      invariant 0 <= i <= |messages|
      invariant downloaded == ImageFileIds(messages[..i])
    {
      var items := messages[i].content;
      var j := 0;
      while j < |items|
        invariant 0 <= j <= |items|
        invariant downloaded == ImageFileIds(messages[..i]) + ContentImageIds(items[..j])
      {
        if !IsNullOrEmpty(items[j].imageFileId) {
          downloaded := downloaded + [items[j].imageFileId.value];
        }
        assert items[..j + 1][..j] == items[..j];
        j := j + 1;
      }
      assert items[..j] == items;
      assert messages[..i + 1][..i] == messages[..i];
      i := i + 1;
    }
    assert messages[..i] == messages;
  }

  /** Fetching keeps message order: the ids of a concatenation are the concatenated ids. */
  lemma {:induction false} ImageFileIdsAppend(a: seq<ThreadMessage>, b: seq<ThreadMessage>)
    ensures ImageFileIds(a + b) == ImageFileIds(a) + ImageFileIds(b)
    decreases |b|
  {
    if b == [] {
      assert a + b == a;
    } else {
      var b' := b[..|b| - 1];
      assert (a + b)[..|a + b| - 1] == a + b';
      ImageFileIdsAppend(a, b');
    }
  }

  /** Content item j of message i carries `id` as a non-empty image file id. */
  predicate CarriesImage(messages: seq<ThreadMessage>, i: int, j: int, id: string) {
    0 <= i < |messages| && 0 <= j < |messages[i].content| &&
    messages[i].content[j].imageFileId == Some(id) && id != []
  }

  /** An id is fetched exactly when some content item carries it as a non-empty image file id. */
  lemma {:induction false} ImageFileIdsExact(messages: seq<ThreadMessage>, id: string)
    ensures id in ImageFileIds(messages) <==> exists i, j :: CarriesImage(messages, i, j, id)
  {
    if messages != [] {
      var init := messages[..|messages| - 1];
      var last := messages[|messages| - 1];
      ImageFileIdsExact(init, id);
      ContentImageIdsExact(last.content, id);
      assert ImageFileIds(messages) == ImageFileIds(init) + ContentImageIds(last.content);
      if exists i, j :: CarriesImage(init, i, j, id) {
        var i, j :| CarriesImage(init, i, j, id);
        assert CarriesImage(messages, i, j, id);
      }
      if id in ContentImageIds(last.content) {
        var j :| 0 <= j < |last.content| && last.content[j].imageFileId == Some(id) && id != [];
        assert CarriesImage(messages, |messages| - 1, j, id);
      }
      if exists i, j :: CarriesImage(messages, i, j, id) {
        var i, j :| CarriesImage(messages, i, j, id);
        if i < |init| {
          assert CarriesImage(init, i, j, id);
        } else {
          assert last.content[j].imageFileId == Some(id);
          assert id in ContentImageIds(last.content);
        }
      }
    }
  }

  lemma {:induction false} ContentImageIdsExact(items: seq<MessageContent>, id: string)
    ensures id in ContentImageIds(items) <==>
      exists j :: 0 <= j < |items| && items[j].imageFileId == Some(id) && id != []
  {
    if items != [] {
      var init := items[..|items| - 1];
      ContentImageIdsExact(init, id);
      if exists j :: 0 <= j < |init| && init[j].imageFileId == Some(id) && id != [] {
        var j :| 0 <= j < |init| && init[j].imageFileId == Some(id) && id != [];
        assert items[j] == init[j];
      }
    }
  }

  /** A call the workflow makes to the assistant service. */
  datatype ExternalCall =
    | UploadFile(payload: Payload)
    | CreateAssistant
    | CreateThreadAndRun
    | GetRun
    | GetMessages
    | GetFile(fileId: string)
    | DownloadFile(fileId: string)

  /** The two fetches per image id: metadata, then bytes. */
  function FetchCalls(ids: seq<string>): (r: seq<ExternalCall>)
    ensures |r| == 2 * |ids|
    ensures forall k :: 0 <= k < |ids| ==> r[2 * k] == GetFile(ids[k]) && r[2 * k + 1] == DownloadFile(ids[k])
  {
    if ids == [] then []
    else [GetFile(ids[0]), DownloadFile(ids[0])] + FetchCalls(ids[1..])
  }
}
