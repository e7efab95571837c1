/**
 * `fetchAttachments`: walk the search result in order, collect each
 * message's attachments over its direct child parts (part `k`, counted from
 * zero, is section `k + 1`), hand each decoded body to the writer, and
 * release the connection once at the end. The writer is an abstract sink
 * that yields a path or fails.
 */
module Fetcher {
  import opened Wrappers
  import opened Mime
  import opened Classify
  import opened Collect
  import opened Seqs

  type Path = string

  /** What `fetchAttachments` ends with: the saved paths, or the error of the write that failed. */
  type Outcome = Result<seq<Path>, string>

  /** The writer: given how many files this call has written so far and the bytes, a path or an error. */
  type Sink = (nat, Bytes) -> Result<Path, string>

  /** What `collectAttachment` returns for each direct child part of `m`. */
  function Candidates(m: Message, dec: Decoders): seq<Option<Attachment>> {
    seq(|m.parts|, i requires 0 <= i < |m.parts| => Candidate(m.parts[i], m, i + 1, dec))
  }

  /** The `$attachments` list of one message. */
  function Collected(m: Message, dec: Decoders): seq<Attachment> {
    Somes(Candidates(m, dec))
  }

  /** The 0-based indices of the parts of `m` collected as attachments. */
  function AttachmentIndices(m: Message, dec: Decoders): seq<nat> {
    SomeIndices(Candidates(m, dec))
  }

  /** One body fetch per index, each for section index + 1. */
  function BodyFetches(number: nat, idx: seq<nat>): seq<Event> {
    seq(|idx|, j requires 0 <= j < |idx| => FetchBody(number, idx[j] + 1))
  }

  function Contents(atts: seq<Attachment>): seq<Bytes> {
    seq(|atts|, i requires 0 <= i < |atts| => atts[i].attachment)
  }

  function Writes(atts: seq<Attachment>): seq<Event> {
    seq(|atts|, i requires 0 <= i < |atts| => Write(atts[i].attachment))
  }

  /** Everything one message causes: its structure fetch, its body fetches, then its writes. */
  function MessageLog(m: Message, dec: Decoders): seq<Event> {
    [FetchStructure(m.number)] + BodyFetches(m.number, AttachmentIndices(m, dec)) + Writes(Collected(m, dec))
  }

  /** The decoded bodies one message hands to the writer. */
  function MessageOutput(m: Message, dec: Decoders): seq<Bytes> {
    Contents(Collected(m, dec))
  }

  /** The log of a run over `ms` in which every write succeeds, release excluded. */
  function Planned(ms: seq<Message>, dec: Decoders): seq<Event> {
    FlatMap(ms, (m: Message) => MessageLog(m, dec))
  }

  /** The decoded bodies handed to the writer over `ms`, in order. */
  function Saved(ms: seq<Message>, dec: Decoders): seq<Bytes> {
    FlatMap(ms, (m: Message) => MessageOutput(m, dec))
  }

  /** Counting writes from `start`, write number `start + i` of `contents[i]` went to `files[i]`. */
  predicate WrittenFrom(contents: seq<Bytes>, write: Sink, start: nat, files: seq<Path>) {
    && |files| == |contents|
    && forall i :: 0 <= i < |files| ==> write(start + i, contents[i]) == Success(files[i])
  }

  /** The `is_attachment` filter applied before writing. */
  function Kept(atts: seq<Attachment>): seq<Attachment> {
    if |atts| == 0 then []
    else Kept(atts[..|atts| - 1]) + (if atts[|atts| - 1].isAttachment then [atts[|atts| - 1]] else [])
  }

  predicate AllWritesSucceed(contents: seq<Bytes>, write: Sink) {
    forall i :: 0 <= i < |contents| ==> write(i, contents[i]).Success?
  }

  /** Write number `j` is the first to fail, with `error`. */
  predicate FirstFailureAt(contents: seq<Bytes>, write: Sink, j: int, error: string) {
    && 0 <= j < |contents|
    && (forall i :: 0 <= i < j ==> write(i, contents[i]).Success?)
    && write(j, contents[j]) == Failure(error)
  }

  /**
   * Collecting from a message keeps exactly its attachment parts, in part
   * order, each collected with section index + 1 and flagged as an
   * attachment, so the `is_attachment` filter before writing drops nothing.
   */
  lemma CollectedAreAttachmentParts(m: Message, dec: Decoders)
    ensures var idx := AttachmentIndices(m, dec);
      && |Collected(m, dec)| == |idx|
      && (forall j, l :: 0 <= j < l < |idx| ==> idx[j] < idx[l])
      && (forall i :: 0 <= i < |m.parts| ==> (i in idx <==> IsAttachmentPart(m.parts[i])))
      && (forall j :: 0 <= j < |idx| ==>
            && idx[j] < |m.parts|
            && Candidate(m.parts[idx[j]], m, idx[j] + 1, dec) == Some(Collected(m, dec)[j])
            && Collected(m, dec)[j].isAttachment)
  {
    var os := Candidates(m, dec);
    SomesFollowIndices(os);
    var idx := AttachmentIndices(m, dec);
    forall i | 0 <= i < |m.parts|
      ensures i in idx <==> IsAttachmentPart(m.parts[i])
    {
      assert os[i] == Candidate(m.parts[i], m, i + 1, dec);
      LabelSpec(m.parts[i]);
    }
  }

  /** A message whose structure has no parts fetches no body and writes nothing. */
  lemma NoPartsNoOutput(m: Message, dec: Decoders)
    requires |m.parts| == 0
    ensures MessageLog(m, dec) == [FetchStructure(m.number)]
    ensures Saved([m], dec) == []
  {
    assert Candidates(m, dec) == [];
    FlatMapStep([m], 0, (x: Message) => MessageOutput(x, dec));
    assert [m][..1] == [m];
  }

  /** Runs compose: the output and log of `ms1 + ms2` are those of `ms1` followed by those of `ms2`. */
  lemma RunsCompose(ms1: seq<Message>, ms2: seq<Message>, dec: Decoders)
    ensures Saved(ms1 + ms2, dec) == Saved(ms1, dec) + Saved(ms2, dec)
    ensures Planned(ms1 + ms2, dec) == Planned(ms1, dec) + Planned(ms2, dec)
  {
    FlatMapAppend(ms1, ms2, (m: Message) => MessageOutput(m, dec));
    FlatMapAppend(ms1, ms2, (m: Message) => MessageLog(m, dec));
  }

  /** Only the final step of a run releases the connection. */
  lemma {:induction false} PlannedHasNoRelease(ms: seq<Message>, dec: Decoders)
    ensures Release !in Planned(ms, dec)
  {
    if |ms| > 0 {
      var n := |ms| - 1;
      PlannedHasNoRelease(ms[..n], dec);
      FlatMapStep(ms, n, (m: Message) => MessageLog(m, dec));
      assert ms[..n + 1] == ms;
      var m := ms[n];
      assert Release !in BodyFetches(m.number, AttachmentIndices(m, dec));
      assert Release !in Writes(Collected(m, dec));
    }
  }

  lemma BodyFetchesStep(number: nat, idx: seq<nat>, k: nat)
    ensures BodyFetches(number, idx + [k]) == BodyFetches(number, idx) + [FetchBody(number, k + 1)]
  {
  }

  lemma WritesStep(atts: seq<Attachment>, t: nat)
    requires t < |atts|
    ensures Writes(atts[..t + 1]) == Writes(atts[..t]) + [Write(atts[t].attachment)]
    ensures Contents(atts[..t + 1]) == Contents(atts[..t]) + [atts[t].attachment]
  {
  }

  lemma WrittenFromAppend(c1: seq<Bytes>, c2: seq<Bytes>, write: Sink, f1: seq<Path>, f2: seq<Path>)
    requires WrittenFrom(c1, write, 0, f1)
    requires WrittenFrom(c2, write, |f1|, f2)
    ensures WrittenFrom(c1 + c2, write, 0, f1 + f2)
  {
    forall i | |f1| <= i < |f1| + |f2|
      ensures write(i, (c1 + c2)[i]) == Success((f1 + f2)[i])
    {
      assert write(|f1| + (i - |f1|), c2[i - |f1|]) == Success(f2[i - |f1|]);
    }
  }

  /** The filter keeps every element when every element is flagged. */
  lemma {:induction false} KeptAll(atts: seq<Attachment>)
    requires forall j :: 0 <= j < |atts| ==> atts[j].isAttachment
    ensures Kept(atts) == atts
  {
    if |atts| > 0 {
      KeptAll(atts[..|atts| - 1]);
    }
  }

  /** The filter drops nothing from a collected list. */
  lemma KeptCollected(m: Message, dec: Decoders)
    ensures Kept(Collected(m, dec)) == Collected(m, dec)
  {
    CollectedAreAttachmentParts(m, dec);
    KeptAll(Collected(m, dec));
  }

  lemma KeptStep(atts: seq<Attachment>, t: nat)
    requires t < |atts|
    ensures Kept(atts[..t + 1]) == Kept(atts[..t]) + (if atts[t].isAttachment then [atts[t]] else [])
  {
    assert atts[..t + 1][..t] == atts[..t];
  }

  /** Writing flagged attachment `t` extends the log of writes by one entry. */
  lemma WritesKeptStep(atts: seq<Attachment>, t: nat)
    requires t < |atts| && atts[t].isAttachment
    ensures Writes(Kept(atts[..t + 1])) == Writes(Kept(atts[..t])) + [Write(atts[t].attachment)]
    ensures Contents(Kept(atts[..t + 1])) == Contents(Kept(atts[..t])) + [atts[t].attachment]
  {
    KeptStep(atts, t);
    WritesStep(Kept(atts[..t + 1]), |Kept(atts[..t])|);
    assert Kept(atts[..t + 1])[..|Kept(atts[..t])|] == Kept(atts[..t]);
  }

  /** A successful write of flagged attachment `t` keeps the write loop's invariant. */
  lemma WriteStep(atts: seq<Attachment>, t: nat, write: Sink, start: nat, paths: seq<Path>, path: Path)
    requires t < |atts| && atts[t].isAttachment
    requires WrittenFrom(Contents(Kept(atts[..t])), write, start, paths)
    requires write(start + |paths|, atts[t].attachment) == Success(path)
    ensures WrittenFrom(Contents(Kept(atts[..t + 1])), write, start, paths + [path])
  {
    WritesKeptStep(atts, t);
  }

  /**
   * In the write loop over `atts`, writes counted from `start` succeeded for
   * the flagged attachments before `t`, producing `paths`, and the write of
   * flagged attachment `t` failed with `error`; `writes` are the writes
   * attempted, the failed one included.
   */
  predicate WriteFailedAt(atts: seq<Attachment>, write: Sink, start: nat, paths: seq<Path>,
                          writes: seq<Event>, t: int, error: string) {
    && 0 <= t < |atts|
    && atts[t].isAttachment
    && WrittenFrom(Contents(Kept(atts[..t])), write, start, paths)
    && write(start + |paths|, atts[t].attachment) == Failure(error)
    && writes == Writes(Kept(atts[..t + 1]))
  }

  /**
   * The write loop of one message: each flagged attachment is written in
   * order, writes counted from `start`; the first failing write stops it.
   */
  method WriteMessage(atts: seq<Attachment>, write: Sink, start: nat)
    returns (paths: seq<Path>, writes: seq<Event>, failure: Option<string>)
    ensures failure.None? ==> WrittenFrom(Contents(Kept(atts)), write, start, paths)
    ensures failure.None? ==> writes == Writes(Kept(atts))
    ensures failure.Some? ==> exists t :: WriteFailedAt(atts, write, start, paths, writes, t, failure.value)
  {
    paths, writes := [], [];
    for t := 0 to |atts|
      invariant WrittenFrom(Contents(Kept(atts[..t])), write, start, paths)
      invariant writes == Writes(Kept(atts[..t]))
    {
      if atts[t].isAttachment {
        WritesKeptStep(atts, t);
        writes := writes + [Write(atts[t].attachment)];
        var w := write(start + |paths|, atts[t].attachment);
        if w.Failure? {
          assert WriteFailedAt(atts, write, start, paths, writes, t, w.error);
          return paths, writes, Some(w.error);
        }
        WriteStep(atts, t, write, start, paths, w.value);
        paths := paths + [w.value];
      } else {
        KeptStep(atts, t);
      }
    }
    assert atts[..|atts|] == atts;
    return paths, writes, None;
  }

  /** The decoded bodies and the log of `search[..i + 1]` extend those of `search[..i]` by message `i`. */
  lemma RunStep(search: seq<Message>, dec: Decoders, i: nat)
    requires i < |search|
    ensures Saved(search[..i + 1], dec) == Saved(search[..i], dec) + MessageOutput(search[i], dec)
    ensures Planned(search[..i + 1], dec) == Planned(search[..i], dec) + MessageLog(search[i], dec)
  {
    FlatMapStep(search, i, (x: Message) => MessageOutput(x, dec));
    FlatMapStep(search, i, (x: Message) => MessageLog(x, dec));
  }

  /** A run over `search[..i + 1]` is the start of the run over `search`. */
  lemma RunPrefix(search: seq<Message>, dec: Decoders, i: nat)
    requires i < |search|
    ensures Saved(search[..i + 1], dec) <= Saved(search, dec)
    ensures Planned(search[..i + 1], dec) <= Planned(search, dec)
  {
    FlatMapPrefix(search, i + 1, (x: Message) => MessageOutput(x, dec));
    FlatMapPrefix(search, i + 1, (x: Message) => MessageLog(x, dec));
  }

  /** After message `i` is written out in full, the files cover the run over `search[..i + 1]`. */
  lemma CompletedMessage(search: seq<Message>, dec: Decoders, write: Sink, i: nat,
                         files: seq<Path>, paths: seq<Path>)
    requires i < |search|
    requires WrittenFrom(Saved(search[..i], dec), write, 0, files)
    requires WrittenFrom(MessageOutput(search[i], dec), write, |files|, paths)
    ensures WrittenFrom(Saved(search[..i + 1], dec), write, 0, files + paths)
    ensures Planned(search[..i + 1], dec) == Planned(search[..i], dec) + MessageLog(search[i], dec)
  {
    RunStep(search, dec, i);
    WrittenFromAppend(Saved(search[..i], dec), MessageOutput(search[i], dec), write, files, paths);
  }

  /**
   * Within message `m`, writes counted from `start` succeeded for the first
   * `t` collected attachments and failed for attachment `t`.
   */
  predicate MessageFailedAt(m: Message, dec: Decoders, write: Sink, start: nat, paths: seq<Path>, t: nat, error: string) {
    var atts := Collected(m, dec);
    && t < |atts|
    && WrittenFrom(Contents(atts[..t]), write, start, paths)
    && write(start + |paths|, atts[t].attachment) == Failure(error)
  }

  /** The log of message `m` when writing its attachment `t` fails. */
  function AbortedMessageLog(m: Message, dec: Decoders, t: nat): seq<Event>
    requires t < |Collected(m, dec)|
  {
    [FetchStructure(m.number)] + BodyFetches(m.number, AttachmentIndices(m, dec)) + Writes(Collected(m, dec)[..t + 1])
  }

  /**
   * The log of a message whose write `t` failed is a prefix of its full log,
   * ends with that write and holds no release.
   */
  lemma AbortedMessageLogPrefix(m: Message, dec: Decoders, t: nat)
    requires t < |Collected(m, dec)|
    ensures var log := AbortedMessageLog(m, dec, t);
      log <= MessageLog(m, dec) && log[|log| - 1].Write? && Release !in log
  {
    var atts := Collected(m, dec);
    var head := [FetchStructure(m.number)] + BodyFetches(m.number, AttachmentIndices(m, dec));
    WritesStep(atts, t);
    assert Writes(atts[..t + 1]) <= Writes(atts);
    PrefixConcat(head, Writes(atts[..t + 1]), Writes(atts));
  }

  /** Every element of a collected list carries the attachment flag. */
  lemma CollectedFlagged(m: Message, dec: Decoders)
    ensures forall j :: 0 <= j < |Collected(m, dec)| ==> Collected(m, dec)[j].isAttachment
  {
    CollectedAreAttachmentParts(m, dec);
  }

  /** The filter keeps every prefix of a collected list whole. */
  lemma KeptCollectedPrefix(m: Message, dec: Decoders, t: nat)
    requires t <= |Collected(m, dec)|
    ensures Kept(Collected(m, dec)[..t]) == Collected(m, dec)[..t]
  {
    CollectedFlagged(m, dec);
    KeptAll(Collected(m, dec)[..t]);
  }

  /**
   * Writes that succeeded for `done` and then for the first `t` of
   * `contents`, followed by a failing write of `contents[t]`, make that
   * write the first failure of any run whose output starts with
   * `done + contents`.
   */
  lemma FirstFailureAfter(done: seq<Bytes>, contents: seq<Bytes>, whole: seq<Bytes>, write: Sink, t: nat,
                          files: seq<Path>, paths: seq<Path>, error: string)
    requires done + contents <= whole && t < |contents|
    requires WrittenFrom(done, write, 0, files)
    requires WrittenFrom(contents[..t], write, |files|, paths)
    requires write(|files| + |paths|, contents[t]) == Failure(error)
    ensures FirstFailureAt(whole, write, |files| + |paths|, error)
  {
    forall k | 0 <= k < |files| + |paths|
      ensures write(k, whole[k]).Success?
    {
      if k < |files| {
        assert whole[k] == done[k];
      } else {
        var u := k - |files|;
        assert whole[k] == contents[..t][u];
        assert write(|files| + u, contents[..t][u]) == Success(paths[u]);
      }
    }
    assert whole[|files| + |paths|] == contents[t];
  }

  /**
   * When the write of attachment `t` of message `i` fails after the files
   * `files` and `paths`, it is the first failing write of the whole run.
   */
  lemma FirstFailureInRun(search: seq<Message>, dec: Decoders, write: Sink, i: nat, t: nat,
                          files: seq<Path>, paths: seq<Path>, error: string)
    requires i < |search| && t < |Collected(search[i], dec)|
    requires WrittenFrom(Saved(search[..i], dec), write, 0, files)
    requires WrittenFrom(Contents(Collected(search[i], dec)[..t]), write, |files|, paths)
    requires write(|files| + |paths|, Collected(search[i], dec)[t].attachment) == Failure(error)
    ensures FirstFailureAt(Saved(search, dec), write, |files| + |paths|, error)
  {
    var atts := Collected(search[i], dec);
    RunStep(search, dec, i);
    RunPrefix(search, dec, i);
    assert Contents(atts[..t]) == Contents(atts)[..t];
    FirstFailureAfter(Saved(search[..i], dec), Contents(atts), Saved(search, dec), write, t, files, paths, error);
  }

  /**
   * The run over `search` stopped at the write of attachment `t` of message
   * `i`: `log` is everything before that message followed by that message's
   * log up to the failed write, and that write is the first failing write of
   * the whole run.
   */
  predicate RunFailedAt(search: seq<Message>, dec: Decoders, write: Sink, i: int, t: int, log: seq<Event>, error: string) {
    && 0 <= i < |search|
    && 0 <= t < |Collected(search[i], dec)|
    && log == Planned(search[..i], dec) + AbortedMessageLog(search[i], dec, t)
    && FirstFailureAt(Saved(search, dec), write, |Saved(search[..i], dec)| + t, error)
  }

  /** A run that stops inside message `i` has logged a prefix of the whole run's log. */
  lemma PartialMessageInRun(search: seq<Message>, dec: Decoders, i: nat, msgLog: seq<Event>)
    requires i < |search| && msgLog <= MessageLog(search[i], dec)
    ensures Planned(search[..i], dec) + msgLog <= Planned(search, dec)
  {
    RunStep(search, dec, i);
    RunPrefix(search, dec, i);
    PrefixConcat(Planned(search[..i], dec), msgLog, MessageLog(search[i], dec));
    PrefixTrans(Planned(search[..i], dec) + msgLog, Planned(search[..i + 1], dec), Planned(search, dec));
  }

  /** One iteration of the part loop extends the collected list and the fetches by part `k`'s contribution. */
  lemma CollectStep(os: seq<Option<Attachment>>, number: nat, k: nat, a: Option<Attachment>, log: seq<Event>)
    requires k < |os| && a == os[k]
    requires log == (if a.Some? then [FetchBody(number, k + 1)] else [])
    ensures Somes(os[..k + 1]) == Somes(os[..k]) + (if a.Some? then [a.value] else [])
    ensures BodyFetches(number, SomeIndices(os[..k + 1])) == BodyFetches(number, SomeIndices(os[..k])) + log
  {
    SomesStep(os, k);
    BodyFetchesStep(number, SomeIndices(os[..k]), k);
  }

  /** A failed write in message `i` is the first failing write of the whole run. */
  lemma FailedMessageWrites(search: seq<Message>, dec: Decoders, write: Sink, i: nat,
                            files: seq<Path>, paths: seq<Path>, error: string)
    requires i < |search|
    requires WrittenFrom(Saved(search[..i], dec), write, 0, files)
    requires exists t :: MessageFailedAt(search[i], dec, write, |files|, paths, t, error)
    ensures exists j :: FirstFailureAt(Saved(search, dec), write, j, error)
    ensures !AllWritesSucceed(Saved(search, dec), write)
  {
    var t :| MessageFailedAt(search[i], dec, write, |files|, paths, t, error);
    FirstFailureInRun(search, dec, write, i, t, files, paths, error);
  }

  /**
   * A failed write in message `i`, after the files `files` of the earlier
   * messages and `paths` of this one, stops the run exactly as `RunFailedAt`
   * describes.
   */
  lemma FailedRunLog(search: seq<Message>, dec: Decoders, write: Sink, i: nat,
                     files: seq<Path>, paths: seq<Path>, msgLog: seq<Event>, error: string)
    requires i < |search|
    requires WrittenFrom(Saved(search[..i], dec), write, 0, files)
    requires exists t :: MessageFailedAt(search[i], dec, write, |files|, paths, t, error)
                         && msgLog == AbortedMessageLog(search[i], dec, t)
    ensures exists t :: RunFailedAt(search, dec, write, i, t, Planned(search[..i], dec) + msgLog, error)
  {
    var t: nat :| MessageFailedAt(search[i], dec, write, |files|, paths, t, error)
                  && msgLog == AbortedMessageLog(search[i], dec, t);
    FirstFailureInRun(search, dec, write, i, t, files, paths, error);
    assert |paths| == t;
    assert RunFailedAt(search, dec, write, i, t, Planned(search[..i], dec) + msgLog, error);
  }

  /** The write loop's failure report, restated for a collected list, which the filter leaves whole. */
  lemma CollectedWriteFailure(m: Message, dec: Decoders, write: Sink, start: nat,
                              paths: seq<Path>, writes: seq<Event>, error: string)
    requires exists t :: WriteFailedAt(Collected(m, dec), write, start, paths, writes, t, error)
    ensures exists t :: MessageFailedAt(m, dec, write, start, paths, t, error)
                        && [FetchStructure(m.number)] + BodyFetches(m.number, AttachmentIndices(m, dec)) + writes
                           == AbortedMessageLog(m, dec, t)
  {
    var atts := Collected(m, dec);
    var t :| WriteFailedAt(atts, write, start, paths, writes, t, error);
    KeptCollectedPrefix(m, dec, t);
    KeptCollectedPrefix(m, dec, t + 1);
    assert MessageFailedAt(m, dec, write, start, paths, t, error);
  }

  /**
   * The body of the loop over the search result for one message: fetch
   * its structure, collect its attachments, then write them, counting
   * writes from `start`.
   */
  method ProcessMessage(m: Message, dec: Decoders, write: Sink, start: nat)
    returns (paths: seq<Path>, log: seq<Event>, failure: Option<string>)
    ensures failure.None? ==> log == MessageLog(m, dec) && WrittenFrom(MessageOutput(m, dec), write, start, paths)
    ensures failure.Some? ==> exists t :: MessageFailedAt(m, dec, write, start, paths, t, failure.value)
                                          && log == AbortedMessageLog(m, dec, t)
    ensures failure.Some? ==> log <= MessageLog(m, dec) && |log| > 0 && log[|log| - 1].Write? && Release !in log
  {
    log := [FetchStructure(m.number)];
    var attachments, fetched := CollectMessage(m, dec);
    log := log + fetched;
    var writes;
    paths, writes, failure := WriteMessage(attachments, write, start);
    log := log + writes;
    if failure.Some? {
      CollectedWriteFailure(m, dec, write, start, paths, writes, failure.value);
      var t :| MessageFailedAt(m, dec, write, start, paths, t, failure.value) && log == AbortedMessageLog(m, dec, t);
      AbortedMessageLogPrefix(m, dec, t);
      return;
    }
    KeptCollected(m, dec);
  }

  /**
   * The `$attachments` list of one message: `collectAttachment` on each
   * direct child part in order, part `k` as section `k + 1`. `fetched` is
   * the body fetches made on the way.
   */
  method CollectMessage(m: Message, dec: Decoders) returns (attachments: seq<Attachment>, fetched: seq<Event>)
    ensures attachments == Collected(m, dec)
    ensures fetched == BodyFetches(m.number, AttachmentIndices(m, dec))
  {
    ghost var os := Candidates(m, dec);
    attachments, fetched := [], [];
    if |m.parts| > 0 {
      for k := 0 to |m.parts|
        invariant attachments == Somes(os[..k])
        invariant fetched == BodyFetches(m.number, SomeIndices(os[..k]))
      {
        var a, log := CollectAttachment(m.parts[k], m, k + 1, dec);
        CollectStep(os, m.number, k, a, log);
        if a.Some? {
          attachments := attachments + [a.value];
        }
        fetched := fetched + log;
      }
    }
    assert os[..|m.parts|] == os;
  }

  /**
   * `fetchAttachments`: the search result is `search`; `log` records every
   * externally visible step in order. The connection is released exactly
   * once when the call returns normally, also for an empty search result,
   * and not at all when a write fails.
   */
  method FetchAttachments(search: seq<Message>, dec: Decoders, write: Sink)
    returns (outcome: Outcome, log: seq<Event>)
    ensures |search| == 0 ==> outcome == Success([]) && log == [Release]
    ensures outcome.Success? ==> WrittenFrom(Saved(search, dec), write, 0, outcome.value)
    ensures outcome.Success? ==> log == Planned(search, dec) + [Release]
    ensures outcome.Failure? ==> exists j :: FirstFailureAt(Saved(search, dec), write, j, outcome.error)
    ensures outcome.Failure? ==> |log| > 0 && log[|log| - 1].Write? && log <= Planned(search, dec)
    ensures outcome.Success? ==> |log| > 0 && Release !in log[..|log| - 1] && log[|log| - 1] == Release
    ensures outcome.Failure? ==> Release !in log
    ensures outcome.Failure? ==> exists i, t :: RunFailedAt(search, dec, write, i, t, log, outcome.error)
    ensures outcome.Success? <==> AllWritesSucceed(Saved(search, dec), write)
  {
    if |search| == 0 {
      log := [Release];
      return Success([]), log;
    }
    var files: seq<Path> := [];
    log := [];
    for i := 0 to |search|
      invariant log == Planned(search[..i], dec)
      invariant WrittenFrom(Saved(search[..i], dec), write, 0, files)
    {
      var paths, msgLog, failure := ProcessMessage(search[i], dec, write, |files|);
      if failure.Some? {
        FailedMessageWrites(search, dec, write, i, files, paths, failure.value);
        PartialMessageInRun(search, dec, i, msgLog);
        PlannedHasNoRelease(search[..i], dec);
        FailedRunLog(search, dec, write, i, files, paths, msgLog, failure.value);
        return Failure(failure.value), log + msgLog;
      }
      CompletedMessage(search, dec, write, i, files, paths);
      log := log + msgLog;
      files := files + paths;
    }
    assert search[..|search|] == search;
    PlannedHasNoRelease(search, dec);
    log := log + [Release];
    assert log[..|log| - 1] == Planned(search, dec);
    return Success(files), log;
  }
}
