/**
 * The slice of a message structure, as PHP's imap extension reports it,
 * that the attachment fetcher reads: a part's transfer encoding and its two
 * parameter lists with their presence flags.
 */
module Mime {

  newtype byte = x: int | 0 <= x < 256

  /** PHP strings are byte strings; raw and decoded bodies are both `Bytes`. */
  type Bytes = seq<byte>

  /** Transfer-encoding codes of the imap extension (`ENC7BIT` .. `ENCOTHER`). */
  const ENC7BIT: int := 0
  const ENC8BIT: int := 1
  const ENCBINARY: int := 2
  const ENCBASE64: int := 3
  const ENCQUOTEDPRINTABLE: int := 4
  const ENCOTHER: int := 5

  /** The parameter attributes that mark a part as an attachment. */
  const FILENAME: string := "filename"
  const NAME: string := "name"

  /** One `{attribute, value}` object of `parameters` or `dparameters`. */
  datatype Parameter = Parameter(attribute: string, value: string)

  /**
   * One direct child part of a message structure. `ifdparameters` and
   * `ifparameters` say whether the corresponding list exists at all.
   */
  datatype Part = Part(
    encoding: int,
    ifdparameters: bool,
    dparameters: seq<Parameter>,
    ifparameters: bool,
    parameters: seq<Parameter>)

  predicate IsAsciiUpper(c: char) {
    'A' <= c <= 'Z'
  }

  /** `strtolower` on one character: only ASCII letters change. */
  function LowerAscii(c: char): char {
    if IsAsciiUpper(c) then (c as int + 32) as char else c
  }

  function ToLower(s: string): string {
    seq(|s|, i requires 0 <= i < |s| => LowerAscii(s[i]))
  }

  /** No ASCII upper-case letter occurs in `key`. */
  predicate IsLowerKey(key: string) {
    forall i :: 0 <= i < |key| ==> !IsAsciiUpper(key[i])
  }

  /**
   * `a` spells `key`, each character either as in `key` or as the upper-case
   * ASCII letter whose lower case is the one in `key`.
   */
  predicate EqualsIgnoringAsciiCase(a: string, key: string) {
    && |a| == |key|
    && forall i :: 0 <= i < |a| ==>
         a[i] == key[i] || (IsAsciiUpper(a[i]) && a[i] as int + 32 == key[i] as int)
  }

  /**
   * Comparing `strtolower(attribute)` with a lower-case key is exactly
   * comparison ignoring ASCII case.
   */
  lemma LowerEqualsIffIgnoringCase(a: string, key: string)
    requires IsLowerKey(key)
    ensures ToLower(a) == key <==> EqualsIgnoringAsciiCase(a, key)
  {
    if ToLower(a) == key {
      forall i | 0 <= i < |a|
        ensures a[i] == key[i] || (IsAsciiUpper(a[i]) && a[i] as int + 32 == key[i] as int)
      {
        assert ToLower(a)[i] == LowerAscii(a[i]);
      }
    }
    if EqualsIgnoringAsciiCase(a, key) {
      forall i | 0 <= i < |a|
        ensures ToLower(a)[i] == key[i]
      {
        assert !IsAsciiUpper(key[i]);
      }
    }
  }
}
