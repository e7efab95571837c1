# IMAP e-mail attachment fetcher — Dafny model

This project models the decision logic of `ImapEmailAttachmentFetcher`. The class
searches an IMAP mailbox and saves every attachment of every matching message to a
directory.

- **`collectAttachment`** decides whether one MIME part is an attachment.
  - A part counts when a present `dparameters` list holds an attribute that
    lower-cases to `filename`, or a present `parameters` list holds one that
    lower-cases to `name`.
  - It records the values of the last such attributes.
  - For an attachment, it fetches the body of the part's section and undoes the
    transfer encoding: base64, quoted-printable, or none.
- **`fetchAttachments`** walks the search result in order.
  - For each message it fetches the structure and runs `collectAttachment` on
    every direct child part. Part `k`, counted from zero, is section `k + 1`.
  - It hands each collected body to the writer.
  - It releases the connection at the end, and also on the empty-result path.

The IMAP calls, the two decoders and the writer are outside the model, so they
enter as parameters:

- `Message.body` is what `imap_fetchbody` returns for a section.
- `Decoders` holds `base64_decode` and `quoted_printable_decode`, left uninterpreted.
- `Sink` is `writeAttachment`. It is given the number of files written so far in
  the call and the bytes, and yields a path or an error.

Every externally visible step is recorded in an `Event` log. The steps are a
structure fetch, a body fetch with its message number and section, a write, and
the connection release. Order and close-once are stated over that log.

Modules:

- `Wrappers`: `Option` and `Result`.
- `Mime`: bytes, the encoding constants, parameters, parts, ASCII lower-casing.
- `Classify`: the attachment test and field capture.
- `Collect`: `collectAttachment`.
- `Seqs`: generic folds over sequences.
- `Fetcher`: `fetchAttachments`.

An exception thrown by `writeAttachment` leaves `fetchAttachments` before
`closeResource` (line 56) runs, so the model releases nothing when a write fails,
and `Fetcher.FetchAttachments` proves that.

## Model

| member | source | states |
|---|---|---|
| Mime.LowerEqualsIffIgnoringCase | Granam/Mail/Attachments/Download/ImapEmailAttachmentFetcher.php:78 | `strtolower(attribute) === key` for a lower-case key holds exactly when the attribute spells the key with any mix of ASCII upper and lower case |
| Classify.LastMatchValueSpec | Granam/Mail/Attachments/Download/ImapEmailAttachmentFetcher.php:77-81 | scanning a parameter list finds a value exactly when some attribute matches the key, and the value found is that of the last match |
| Classify.LabelSpec | Granam/Mail/Attachments/Download/ImapEmailAttachmentFetcher.php:70-91 | `is_attachment` ends up true exactly when a present d-parameter list has a `filename` attribute or a present parameter list has a `name` attribute; `filename` and `name` hold the last matching values, `''` when nothing matches |
| Classify.CapturesIsUnique | Granam/Mail/Attachments/Download/ImapEmailAttachmentFetcher.php:77-81 | the "value of the last match, else `''`" description determines the recorded value uniquely |
| Classify.AbsentDParametersIgnored | Granam/Mail/Attachments/Download/ImapEmailAttachmentFetcher.php:76 | when `ifdparameters` is false, the contents of `dparameters` do not affect the result, and `filename` stays `''` |
| Classify.AbsentParametersIgnored | Granam/Mail/Attachments/Download/ImapEmailAttachmentFetcher.php:84 | when `ifparameters` is false, the contents of `parameters` do not affect the result, and `name` stays `''` |
| Classify.CapturesIndependent | Granam/Mail/Attachments/Download/ImapEmailAttachmentFetcher.php:76-91 | `filename` depends only on the d-parameters and `name` only on the parameters |
| Classify.MixedCaseFilenameMarksAttachment | Granam/Mail/Attachments/Download/ImapEmailAttachmentFetcher.php:78-80 | an example of `Classify.LabelSpec`: a `FileName` d-parameter marks the part as an attachment and supplies its file name |
| Classify.LastNameWins | Granam/Mail/Attachments/Download/ImapEmailAttachmentFetcher.php:85-89 | an example of `Classify.LabelSpec`: of two matching `name` parameters, the later value is kept |
| Collect.ScanParameters | Granam/Mail/Attachments/Download/ImapEmailAttachmentFetcher.php:85-90 | one loop over a parameter list sets the flag exactly when some attribute matches; it then holds the last match's value and otherwise leaves the value untouched |
| Collect.CollectAttachment | Granam/Mail/Attachments/Download/ImapEmailAttachmentFetcher.php:68-107 | returns a result exactly for attachment parts, flagged and carrying the captured `filename` and `name`; fetches one body, for the given message and section, only for them; applies base64 decoding for ENCBASE64 (3), quoted-printable decoding for ENCQUOTEDPRINTABLE (4) and nothing otherwise; agrees with the reference `Candidate` |
| Fetcher.CollectMessage | Granam/Mail/Attachments/Download/ImapEmailAttachmentFetcher.php:41-49 | the attachments list of one message is the results of its parts in part order, part `k` taken as section `k + 1`, with one body fetch per collected part |
| Fetcher.CollectedAreAttachmentParts | Granam/Mail/Attachments/Download/ImapEmailAttachmentFetcher.php:42-48 | the collected entries correspond, in increasing part order, to exactly the attachment parts; each was collected with section index + 1 and is flagged |
| Fetcher.KeptCollected | Granam/Mail/Attachments/Download/ImapEmailAttachmentFetcher.php:50-54 | the `is_attachment` filter before writing removes nothing from a collected list |
| Fetcher.WriteMessage | Granam/Mail/Attachments/Download/ImapEmailAttachmentFetcher.php:50-54 | writes each flagged attachment in order, numbering writes on from the files already saved; on a failed write it stops at the first failing attachment, with all earlier writes successful |
| Fetcher.NoPartsNoOutput | Granam/Mail/Attachments/Download/ImapEmailAttachmentFetcher.php:42 | a message without parts causes only its structure fetch and saves nothing |
| Fetcher.RunsCompose | Granam/Mail/Attachments/Download/ImapEmailAttachmentFetcher.php:38-55 | the saved bodies and the log over two consecutive runs of messages are those of the first followed by those of the second |
| Fetcher.PlannedHasNoRelease | Granam/Mail/Attachments/Download/ImapEmailAttachmentFetcher.php:38-56 | nothing in the message loop releases the connection |
| Fetcher.PartialMessageInRun | Granam/Mail/Attachments/Download/ImapEmailAttachmentFetcher.php:38-55 | a run that stops partway through a message has logged a prefix of the whole run's log |
| Fetcher.FailedRunLog | Granam/Mail/Attachments/Download/ImapEmailAttachmentFetcher.php:38-55 | a failed write in message `i` is the first failing write of the run, at the position counted over all saved bodies, and the log ends exactly with it |
| Fetcher.ProcessMessage | Granam/Mail/Attachments/Download/ImapEmailAttachmentFetcher.php:38-55 | one message yields its structure fetch, its body fetches and its writes, in that order; a failed write ends its log at that write |
| Fetcher.FetchAttachments | Granam/Mail/Attachments/Download/ImapEmailAttachmentFetcher.php:28-59 | an empty search returns `[]` after a single release; the call succeeds exactly when every write succeeds, then returns the paths of all collected bodies in search order and part order, and its log is the per-message steps followed by the release, which occurs there and nowhere else; when a write fails, there are a message `i` and an attachment `t` of it such that the write of `t` is the first failing write of the run and carries its error, and the log is exactly the earlier messages' logs followed by message `i`'s log up to that write; that log is a prefix of the full run's log and holds no release |
| Seqs.SomesFollowIndices | Granam/Mail/Attachments/Download/ImapEmailAttachmentFetcher.php:43-47 | keeping the non-null results of a list keeps them in order, and each kept entry sits at the position recorded for it |

## Left out

- `writeAttachment` (lines 109-129) is the abstract `Sink`. Its body is not modelled. As written it has these defects:
  - it calls itself unconditionally on its first line (line 111);
  - it passes a literal to `rtrim` (line 116);
  - it indexes its string argument as an array (line 121), although its caller already passed `$attachment['attachment']` (line 52).
- The body fetch is assumed to succeed. As written it cannot: the file declares `strict_types=1` (line 2), and `collectAttachment` passes its `int $section` (line 68) to `imap_fetchbody` (line 94), whose section parameter is a `string`. Strict mode rejects that call with a `TypeError`, so each attachment part throws there, before any decoding or writing, and `closeResource` is never reached. The model describes the evident intent, with the section passed as a section number.
- The file name comes from `uniqid`. The model replaces it with the sink's write number.
- `imap_search`, `imap_fetchstructure` and `imap_fetchbody` are not modelled as calls. The search result is a sequence of `Message` values and the body is `Message.body`. The search criteria, the charset and the connection's own lifecycle are not modelled.
- `imap_search` returns `false` when nothing matches, and PHP's `count(false)` behaviour depends on the PHP version. The model treats "no messages" as an empty sequence.
- `base64_decode` and `quoted_printable_decode` are uninterpreted functions. The model states only which one is applied, to what, and in what order.
- `strtolower` is modelled as ASCII lower-casing. Locale-dependent lower-casing of non-ASCII bytes is not modelled.
- Nested parts are not examined, just as in the code: only direct child parts of the top-level structure are.
- `(int)$part->encoding` is modelled as an integer `encoding` field. The string-to-integer cast is not modelled.
