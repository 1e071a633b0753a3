/**
 * The RX tool's bind request body: the firmware's JSON template with the
 * placeholder string `"$UID6"` replaced by the bind phrase's six UID bytes
 * as a JSON array.
 */
module JsonTemplate {
  import opened Wrappers
  import opened Strings

  /** The placeholder, quotes included, that the template holds where the UID goes. */
  const Placeholder: string := "\"$UID6\""

  /** Why the body cannot be built. */
  datatype BindJsonError =
    | UidLength          // null, or not six values
    | UidRange           // a value outside 0..255
    | TemplateUndefined  // no template in the configuration: its raw text cannot be read

  /** The message of the exception thrown (the last is .NET's for an operation in a wrong state). */
  function ErrorText(e: BindJsonError): string {
    match e
    case UidLength => "UID must be length 6"
    case UidRange => "UID values must be 0..255"
    case TemplateUndefined => "Operation is not valid due to the current state of the object."
  }

  /** Every UID value is a byte. */
  predicate UidInRange(uid: seq<int>) {
    forall i :: 0 <= i < |uid| ==> 0 <= uid[i] <= 255
  }

  /** The decimal text of each value. */
  function UidTexts(uid: seq<int>): (r: seq<string>)
    ensures |r| == |uid|
  {
    seq(|uid|, i requires 0 <= i < |uid| => IntToString(uid[i]))
  }

  /** `"[" + string.Join(",", uid6) + "]"`. */
  function UidJson(uid: seq<int>): string {
    "[" + Join(",", UidTexts(uid)) + "]"
  }

  /** `BuildBindJson`: check the UID, then replace every placeholder in the template's raw text. */
  function BuildBindJson(template: Option<string>, uid: Option<seq<int>>): Result<string, BindJsonError> {
    if uid.None? || |uid.value| != 6 then Err(UidLength)
    else if !UidInRange(uid.value) then Err(UidRange)
    else if template.None? then Err(TemplateUndefined)
    else Ok(ReplaceAll(template.value, Placeholder, UidJson(uid.value)))
  }

  /**
   * The body is refused for a null UID or one not of six values, then for a
   * value out of 0..255, then for a missing template; it is built in every
   * other case.
   */
  lemma BuildBindJsonErrors(template: Option<string>, uid: Option<seq<int>>)
    ensures BuildBindJson(template, uid) == Err(UidLength) <==> uid.None? || |uid.value| != 6
    ensures BuildBindJson(template, uid) == Err(UidRange) <==>
      uid.Some? && |uid.value| == 6 && exists i :: 0 <= i < 6 && (uid.value[i] < 0 || uid.value[i] > 255)
    ensures BuildBindJson(template, uid).Ok? <==>
      uid.Some? && |uid.value| == 6 && UidInRange(uid.value) && template.Some?
  {
  }

  /** The array text holds only brackets, digits and commas for a UID of bytes. */
  lemma UidJsonChars(uid: seq<int>)
    requires UidInRange(uid)
    ensures var j := UidJson(uid); j[0] == '[' && forall c :: c in j ==> c == '[' || c == ']' || c == ',' || IsDigit(c)
  {
    var j := UidJson(uid);
    var inner := Join(",", UidTexts(uid));
    assert j == "[" + inner + "]";
    forall c | c in j ensures c == '[' || c == ']' || c == ',' || IsDigit(c) {
      if c in inner {
        JoinChars(",", UidTexts(uid), c);
        if c !in "," {
          var k :| 0 <= k < |UidTexts(uid)| && c in UidTexts(uid)[k];
          var t := UidTexts(uid)[k];
          assert t == NatToString(uid[k]);
          var n :| 0 <= n < |t| && t[n] == c;
        }
      }
    }
  }

  /** No placeholder is left in a body that was built. */
  lemma PlaceholderReplaced(template: Option<string>, uid: Option<seq<int>>)
    requires BuildBindJson(template, uid).Ok?
    ensures !Contains(BuildBindJson(template, uid).value, Placeholder)
  {
    UidJsonChars(uid.value);
    NoPatternAfterReplace(template.value, Placeholder, UidJson(uid.value));
  }

  /** A template without the placeholder is sent as it is. */
  lemma NoPlaceholderUnchanged(template: string, uid: seq<int>)
    requires |uid| == 6 && UidInRange(uid) && !Contains(template, Placeholder)
    ensures BuildBindJson(Some(template), Some(uid)) == Ok(template)
  {
    ReplaceAllWithoutPattern(template, Placeholder, UidJson(uid));
  }

  /** For a UID of bytes, each element of the array is the decimal text of its value and reads back as it. */
  lemma UidTextsReadBack(uid: seq<int>)
    requires UidInRange(uid)
    ensures forall i :: 0 <= i < |uid| ==> AllDigits(UidTexts(uid)[i]) && DigitsValue(UidTexts(uid)[i]) == uid[i]
  {
    forall i | 0 <= i < |uid| ensures AllDigits(UidTexts(uid)[i]) && DigitsValue(UidTexts(uid)[i]) == uid[i] {
      assert UidTexts(uid)[i] == NatToString(uid[i]);
      DigitsValueOfNatToString(uid[i]);
    }
  }
}
