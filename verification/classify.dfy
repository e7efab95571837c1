/**
 * The attachment test of `collectAttachment`: a part is an attachment when a
 * present `dparameters` list holds a `filename` attribute or a present
 * `parameters` list holds a `name` attribute, compared after ASCII
 * lower-casing; the value of the last such attribute is recorded.
 */
module Classify {
  import opened Wrappers
  import opened Mime

  /** `strtolower($object->attribute) === key`. */
  predicate Matches(p: Parameter, key: string) {
    ToLower(p.attribute) == key
  }

  predicate HasMatch(ps: seq<Parameter>, key: string) {
    exists i :: 0 <= i < |ps| && Matches(ps[i], key)
  }

  /** `ps[i]` matches `key` and no later parameter does. */
  predicate IsLastMatch(ps: seq<Parameter>, key: string, i: int) {
    && 0 <= i < |ps|
    && Matches(ps[i], key)
    && forall j :: i < j < |ps| ==> !Matches(ps[j], key)
  }

  /**
   * What a scan of a list records for `key`: nothing (`''`) when the list is
   * absent or holds no match, otherwise the value of its last match.
   */
  predicate Captures(present: bool, ps: seq<Parameter>, key: string, v: string) {
    if present && HasMatch(ps, key) then
      exists i :: 0 <= i < |ps| && IsLastMatch(ps, key, i) && v == ps[i].value
    else
      v == ""
  }

  /** The part carries a present `filename` d-parameter or a present `name` parameter. */
  predicate IsAttachmentPart(part: Part) {
    || (part.ifdparameters && HasMatch(part.dparameters, FILENAME))
    || (part.ifparameters && HasMatch(part.parameters, NAME))
  }

  /** The value of the last parameter matching `key`, if any. */
  function LastMatchValue(ps: seq<Parameter>, key: string): Option<string> {
    if |ps| == 0 then None
    else if Matches(ps[|ps| - 1], key) then Some(ps[|ps| - 1].value)
    else LastMatchValue(ps[..|ps| - 1], key)
  }

  /**
   * `LastMatchValue` finds a value exactly when some parameter matches, and
   * the value it finds is that of the last match.
   */
  lemma {:induction false} LastMatchValueSpec(ps: seq<Parameter>, key: string)
    ensures LastMatchValue(ps, key).None? <==> !HasMatch(ps, key)
    ensures LastMatchValue(ps, key).Some? ==>
              exists i :: IsLastMatch(ps, key, i) && LastMatchValue(ps, key).value == ps[i].value
  {
    if |ps| == 0 {
    } else if Matches(ps[|ps| - 1], key) {
      assert IsLastMatch(ps, key, |ps| - 1);
    } else {
      var init := ps[..|ps| - 1];
      LastMatchValueSpec(init, key);
      var r := LastMatchValue(init, key);
      assert HasMatch(ps, key) ==> HasMatch(init, key) by {
        if HasMatch(ps, key) {
          var i :| 0 <= i < |ps| && Matches(ps[i], key);
          assert init[i] == ps[i];
        }
      }
      if r.Some? {
        var i :| IsLastMatch(init, key, i) && r.value == init[i].value;
        assert IsLastMatch(ps, key, i);
      }
    }
  }

  /** A scan that skips an absent list entirely. */
  function Scan(present: bool, ps: seq<Parameter>, key: string): Option<string> {
    if present then LastMatchValue(ps, key) else None
  }

  /** The `is_attachment`, `filename` and `name` entries `collectAttachment` fills in. */
  datatype Labels = Labels(isAttachment: bool, filename: string, name: string)

  function Label(part: Part): Labels {
    var f := Scan(part.ifdparameters, part.dparameters, FILENAME);
    var n := Scan(part.ifparameters, part.parameters, NAME);
    Labels(f.Some? || n.Some?, f.GetOr(""), n.GetOr(""))
  }

  /**
   * A part is labelled an attachment exactly when it has a present
   * `filename` d-parameter or a present `name` parameter; `filename` and
   * `name` hold the values of the last such attributes, `''` otherwise.
   */
  lemma LabelSpec(part: Part)
    ensures Label(part).isAttachment <==> IsAttachmentPart(part)
    ensures Captures(part.ifdparameters, part.dparameters, FILENAME, Label(part).filename)
    ensures Captures(part.ifparameters, part.parameters, NAME, Label(part).name)
  {
    LastMatchValueSpec(part.dparameters, FILENAME);
    LastMatchValueSpec(part.parameters, NAME);
  }

  /** `Captures` pins the recorded value down: at most one value satisfies it. */
  lemma CapturesIsUnique(present: bool, ps: seq<Parameter>, key: string, v1: string, v2: string)
    requires Captures(present, ps, key, v1)
    requires Captures(present, ps, key, v2)
    ensures v1 == v2
  {
    if present && HasMatch(ps, key) {
      var i1 :| 0 <= i1 < |ps| && IsLastMatch(ps, key, i1) && v1 == ps[i1].value;
      var i2 :| 0 <= i2 < |ps| && IsLastMatch(ps, key, i2) && v2 == ps[i2].value;
      assert i1 == i2;
    }
  }

  /** An absent d-parameter list is ignored whatever it holds. */
  lemma AbsentDParametersIgnored(part: Part, other: seq<Parameter>)
    requires !part.ifdparameters
    ensures Label(part.(dparameters := other)) == Label(part)
    ensures Label(part).filename == ""
  {
  }

  /** An absent parameter list is ignored whatever it holds. */
  lemma AbsentParametersIgnored(part: Part, other: seq<Parameter>)
    requires !part.ifparameters
    ensures Label(part.(parameters := other)) == Label(part)
    ensures Label(part).name == ""
  {
  }

  /**
   * The two captures are independent: `filename` depends only on the
   * d-parameters, `name` only on the parameters.
   */
  lemma CapturesIndependent(part: Part, present: bool, other: seq<Parameter>)
    ensures Label(part.(ifparameters := present, parameters := other)).filename == Label(part).filename
    ensures Label(part.(ifdparameters := present, dparameters := other)).name == Label(part).name
  {
  }

  /** Upper-case spellings such as `FileName` still mark an attachment. */
  lemma MixedCaseFilenameMarksAttachment(encoding: int, value: string)
    ensures Label(Part(encoding, true, [Parameter("FileName", value)], false, [])) ==
            Labels(true, value, "")
  {
    var p := Parameter("FileName", value);
    assert ToLower(p.attribute) == FILENAME;
    assert IsLastMatch([p], FILENAME, 0);
  }

  /** When several attributes match, the later value overwrites the earlier one. */
  lemma LastNameWins(encoding: int, first: string, second: string)
    ensures Label(Part(encoding, false, [], true,
                       [Parameter("name", first), Parameter("NAME", second)])) ==
            Labels(true, "", second)
  {
    var ps := [Parameter("name", first), Parameter("NAME", second)];
    assert ToLower(ps[1].attribute) == NAME;
    assert IsLastMatch(ps, NAME, 1);
  }
}
