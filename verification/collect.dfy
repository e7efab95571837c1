/**
 * `collectAttachment`: label a part, and for an attachment fetch its body
 * for the given section and undo its transfer encoding. The body fetch and
 * the two decoders are outside the model and enter as parameters.
 */
module Collect {
  import opened Wrappers
  import opened Mime
  import opened Classify

  /** `base64_decode` and `quoted_printable_decode`, left uninterpreted. */
  datatype Decoders = Decoders(base64: Bytes -> Bytes, quotedPrintable: Bytes -> Bytes)

  /** The array `collectAttachment` returns: labels plus the decoded body. */
  datatype Attachment = Attachment(isAttachment: bool, filename: string, name: string, attachment: Bytes)

  /**
   * One message of a search result: its number, the direct child parts of
   * its structure, and what `imap_fetchbody` yields for each section.
   */
  datatype Message = Message(number: nat, parts: seq<Part>, body: nat -> Bytes)

  /** The externally visible steps of a fetch, in the order they happen. */
  datatype Event =
    | FetchStructure(message: nat)
    | FetchBody(message: nat, section: nat)
    | Write(content: Bytes)
    | Release

  /** Which decoder a transfer encoding selects. */
  datatype Decoding = Base64 | QuotedPrintable | Unchanged

  /** ENC7BIT, ENC8BIT, ENCBINARY, ENCOTHER and any other code leave the body `Unchanged`. */
  function DecodingOf(encoding: int): Decoding {
    if encoding == ENCBASE64 then Base64
    else if encoding == ENCQUOTEDPRINTABLE then QuotedPrintable
    else Unchanged
  }

  function Apply(d: Decoding, dec: Decoders, raw: Bytes): Bytes {
    match d
    case Base64 => dec.base64(raw)
    case QuotedPrintable => dec.quotedPrintable(raw)
    case Unchanged => raw
  }

  /** Reference definition of `collectAttachment`'s result. */
  function Candidate(part: Part, m: Message, section: nat, dec: Decoders): (r: Option<Attachment>)
    ensures r.Some? ==> r.value.isAttachment
  {
    var l := Label(part);
    if l.isAttachment then
      Some(Attachment(true, l.filename, l.name, Apply(DecodingOf(part.encoding), dec, m.body(section))))
    else
      None
  }

  /**
   * One `foreach` over a parameter list: every attribute that lower-cases to
   * `key` sets the attachment flag and overwrites the recorded value.
   */
  method ScanParameters(ps: seq<Parameter>, key: string, flag: bool, value: string)
    returns (flag': bool, value': string)
    ensures flag' <==> flag || HasMatch(ps, key)
    ensures HasMatch(ps, key) ==> exists i :: IsLastMatch(ps, key, i) && value' == ps[i].value
    ensures !HasMatch(ps, key) ==> value' == value
  {
    flag', value' := flag, value;
    LastMatchValueSpec(ps, key);
    for k := 0 to |ps|
      invariant flag' == (flag || LastMatchValue(ps[..k], key).Some?)
      invariant value' == LastMatchValue(ps[..k], key).GetOr(value)
    {
      assert ps[..k + 1][..k] == ps[..k];
      if ToLower(ps[k].attribute) == key {
        flag' := true;
        value' := ps[k].value;
      }
    }
    assert ps[..|ps|] == ps;
  }

  /**
   * `collectAttachment($part, $inbox, $messageNumber, $section)`: both
   * parameter scans, then the body fetch and the decode for an attachment,
   * with the fetch assumed to succeed. `log` is the body fetch it performs,
   * if any.
   */
  method CollectAttachment(part: Part, m: Message, section: nat, dec: Decoders)
    returns (r: Option<Attachment>, log: seq<Event>)
    ensures r.Some? <==> IsAttachmentPart(part)
    ensures r.Some? ==> r.value.isAttachment
    ensures r.Some? ==> Captures(part.ifdparameters, part.dparameters, FILENAME, r.value.filename)
    ensures r.Some? ==> Captures(part.ifparameters, part.parameters, NAME, r.value.name)
    ensures log == (if r.Some? then [FetchBody(m.number, section)] else [])
    ensures r.Some? && part.encoding == ENCBASE64 ==>
              r.value.attachment == dec.base64(m.body(section))
    ensures r.Some? && part.encoding == ENCQUOTEDPRINTABLE ==>
              r.value.attachment == dec.quotedPrintable(m.body(section))
    ensures r.Some? && part.encoding != ENCBASE64 && part.encoding != ENCQUOTEDPRINTABLE ==>
              r.value.attachment == m.body(section)
    ensures r == Candidate(part, m, section, dec)
  {
    var isAttachment := false;
    var filename := "";
    var name := "";
    var attachment: Bytes := [];
    log := [];
    if part.ifdparameters {
      isAttachment, filename := ScanParameters(part.dparameters, FILENAME, isAttachment, filename);
    }
    if part.ifparameters {
      isAttachment, name := ScanParameters(part.parameters, NAME, isAttachment, name);
    }
    LabelSpec(part);
    CapturesIsUnique(part.ifdparameters, part.dparameters, FILENAME, filename, Label(part).filename);
    CapturesIsUnique(part.ifparameters, part.parameters, NAME, name, Label(part).name);

    if isAttachment {
      attachment := m.body(section);
      log := [FetchBody(m.number, section)];
      if part.encoding == ENCBASE64 {
        attachment := dec.base64(attachment);
      } else if part.encoding == ENCQUOTEDPRINTABLE {
        attachment := dec.quotedPrintable(attachment);
      }
    }

    if isAttachment {
      return Some(Attachment(isAttachment, filename, name, attachment)), log;
    }
    return None, log;
  }
}
