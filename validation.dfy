/** `validateMobileInput` (script.js:700-747): the trimmed value of a form
    field is checked by the rule for the field's `type`, and the field's
    border, background and `.validation-message` element are brought in line
    with the verdict. */
module Validation {
  import opened Text

  // ---------------------------------------------------------------------------
  // Email: /^[^\s@]+@[^\s@]+\.[^\s@]+$/
  // ---------------------------------------------------------------------------

  /** The class `[^\s@]`. */
  predicate Plain(c: char) {
    !IsSpace(c) && c != '@'
  }

  predicate AllPlain(v: string, lo: nat, hi: nat)
    requires lo <= hi <= |v|
  {
    forall k :: lo <= k < hi ==> Plain(v[k])
  }

  /** The email regex matches `v` with its `@` at `at` and its `\.` at `dot`:
      `v[..at]`, `v[at+1..dot]` and `v[dot+1..]` are non-empty runs of `[^\s@]`. */
  predicate EmailSplit(v: string, at: nat, dot: nat) {
    && 0 < at && at + 1 < dot && dot + 1 < |v|
    && v[at] == '@' && v[dot] == '.'
    && AllPlain(v, 0, at) && AllPlain(v, at + 1, dot) && AllPlain(v, dot + 1, |v|)
  }

  ghost predicate EmailRegexMatches(v: string) {
    exists at: nat, dot: nat :: EmailSplit(v, at, dot)
  }

  /** Index of the first `c` in `v`, or `|v|` when there is none. */
  function FirstIndex(v: string, c: char): (i: nat)
    ensures i <= |v| && (i < |v| ==> v[i] == c)
    ensures forall k :: 0 <= k < i ==> v[k] != c
  {
    if v == [] then 0
    else if v[0] == c then 0
    else 1 + FirstIndex(v[1..], c)
  }

  /** The email check computed directly: no white space anywhere, exactly one
      `@` with something before it, and a `.` in the domain that is neither
      its first nor its last character. */
  function IsEmail(v: string): bool {
    var at := FirstIndex(v, '@');
    && 0 < at && at + 3 <= |v|
    && (forall k :: 0 <= k < |v| ==> !IsSpace(v[k]))
    && '@' !in v[at + 1..]
    && '.' in v[at + 2..|v| - 1]
  }

  /** The direct check accepts exactly the strings the email regex matches. */
  lemma EmailIff(v: string)
    ensures IsEmail(v) <==> EmailRegexMatches(v)
  {
    var at := FirstIndex(v, '@');
    if IsEmail(v) {
      var j :| 0 <= j < |v[at + 2..|v| - 1]| && v[at + 2..|v| - 1][j] == '.';
      var dot := at + 2 + j;
      assert v[dot] == '.';
      forall k | at + 1 <= k < |v|
        ensures v[k] != '@'
      {
        assert v[k] == v[at + 1..][k - at - 1];
      }
      assert EmailSplit(v, at, dot);
    }
    if EmailRegexMatches(v) {
      var a: nat, d: nat :| EmailSplit(v, a, d);
      assert at == a;
      assert v[d] == v[at + 2..|v| - 1][d - at - 2];
      assert forall k :: 0 <= k < |v| ==> k == a || Plain(v[k]);
    }
  }

  // ---------------------------------------------------------------------------
  // Phone: /^[\+]?[0-9\s\-\(\)]{10,}$/
  // ---------------------------------------------------------------------------

  /** The class `[0-9\s\-\(\)]`. */
  predicate TelChar(c: char) {
    IsDigit(c) || IsSpace(c) || c == '-' || c == '(' || c == ')'
  }

  /** The phone regex matches `v` with `p` characters (0 or 1) taken by the
      optional `+`. */
  predicate TelSplit(v: string, p: nat) {
    && p <= 1 && p + 10 <= |v|
    && (p == 1 ==> v[0] == '+')
    && forall k :: p <= k < |v| ==> TelChar(v[k])
  }

  ghost predicate TelRegexMatches(v: string) {
    exists p: nat :: TelSplit(v, p)
  }

  /** The phone check computed directly: drop a leading `+` if there is one,
      then ask for ten or more characters of the class. */
  function IsTel(v: string): bool {
    if v != [] && v[0] == '+' then TelBody(v[1..]) else TelBody(v)
  }

  /** `[0-9\s\-\(\)]{10,}` over the whole of `b`. */
  predicate TelBody(b: string) {
    |b| >= 10 && forall k :: 0 <= k < |b| ==> TelChar(b[k])
  }

  /** Taking the `+` greedily loses no match, since `+` is not in the class. */
  lemma TelIff(v: string)
    ensures IsTel(v) <==> TelRegexMatches(v)
  {
    var p: nat := if v != [] && v[0] == '+' then 1 else 0;
    var body := v[p..];
    assert IsTel(v) == TelBody(body);
    if IsTel(v) {
      forall k | p <= k < |v|
        ensures TelChar(v[k])
      {
        assert 0 <= k - p < |body|;
        assert TelChar(body[k - p]);
        assert v[k] == body[k - p];
      }
      assert TelSplit(v, p);
    }
    if TelRegexMatches(v) {
      var q: nat :| TelSplit(v, q);
      assert q == p;
      assert forall k :: 0 <= k < |body| ==> body[k] == v[k + p];
    }
  }

  /** The regex asks for no digit at all: ten hyphens pass. */
  lemma TelNeedsNoDigit(v: string)
    requires v == "----------"
    ensures IsTel(v) && TelRegexMatches(v)
  {
    assert v[0] == '-' && v[1] == '-' && v[2] == '-' && v[3] == '-' && v[4] == '-';
    assert v[5] == '-' && v[6] == '-' && v[7] == '-' && v[8] == '-' && v[9] == '-';
    assert forall k :: 0 <= k < |v| ==> TelChar(v[k]);
    TelIff(v);
  }

  // ---------------------------------------------------------------------------
  // The rule for each input type
  // ---------------------------------------------------------------------------

  /** The outcome of the `switch`: the verdict and the message shown. */
  datatype Outcome = Outcome(valid: bool, message: string)

  const EmailMessage := "Please enter a valid email address"
  const TelMessage := "Please enter a valid phone number"
  const TextMessage := "Please enter at least 2 characters"

  /** The `switch (input.type)` of `validateMobileInput`, on the trimmed
      value: each of the three rules, and no check at all for any other type. */
  function Check(inputType: string, value: string): (r: Outcome)
    ensures r.valid <==> r.message == []
    ensures inputType == "email" ==> (r.valid <==> EmailRegexMatches(value))
    ensures inputType == "tel" ==> (r.valid <==> TelRegexMatches(value))
    ensures inputType == "text" ==> (r.valid <==> Utf16Length(value) >= 2)
    ensures inputType != "email" && inputType != "tel" && inputType != "text" ==> r.valid
    ensures !r.valid ==> (r.message ==
      if inputType == "email" then EmailMessage
      else if inputType == "tel" then TelMessage
      else TextMessage)
  {
    EmailIff(value);
    TelIff(value);
    if inputType == "email" then
      (if IsEmail(value) then Outcome(true, "") else Outcome(false, EmailMessage))
    else if inputType == "tel" then
      (if IsTel(value) then Outcome(true, "") else Outcome(false, TelMessage))
    else if inputType == "text" then
      (if Utf16Length(value) >= 2 then Outcome(true, "") else Outcome(false, TextMessage))
    else Outcome(true, "")
  }

  /** `validateMobileInput` checks `input.value.trim()`. */
  function Validate(inputType: string, raw: string): Outcome {
    Check(inputType, Trim(raw))
  }

  /** Surrounding white space never changes the verdict: the rules see the
      trimmed value only. */
  lemma ValidateIgnoresPadding(inputType: string, pre: string, raw: string, post: string)
    requires forall k :: 0 <= k < |pre| ==> IsSpace(pre[k])
    requires forall k :: 0 <= k < |post| ==> IsSpace(post[k])
    ensures Validate(inputType, pre + raw + post) == Validate(inputType, raw)
  {
    TrimPadding(pre, raw, post);
  }

  /** The text rule counts UTF-16 code units: a value of one character
      passes exactly when that character lies outside the Basic Multilingual
      Plane (an emoji, say), since it then has length 2. */
  lemma OneCharacterText(raw: string)
    requires |Trim(raw)| == 1
    ensures Validate("text", raw).valid <==> Trim(raw)[0] as int > 0xFFFF
  {
    var t := Trim(raw);
    assert t[1..] == [];
    assert Utf16Length(t) == (if t[0] as int > 0xFFFF then 2 else 1) + Utf16Length([]);
  }

  // ---------------------------------------------------------------------------
  // The form field and its validation message
  // ---------------------------------------------------------------------------

  /** The markup put before the message text. */
  const Icon := "<i class=\"fas fa-exclamation-circle\"></i>"

  /** The `innerHTML` of the message elements under the field's parent
      after the update, from those before and the verdict: the first one, if
      any, is removed for a valid value and rewritten for an invalid one, and
      one is appended when there is none and the value is invalid. */
  function ShownMessages(before: seq<string>, r: Outcome): seq<string> {
    if before == [] then (if r.valid then [] else [Icon + r.message])
    else if r.valid then before[1..]
    else [Icon + r.message] + before[1..]
  }

  /** With at most one message element to begin with, there is at most one
      afterwards, and there is one exactly when the value is invalid; an
      invalid value's element names what is wrong. */
  lemma ShownMessagesTrackVerdict(before: seq<string>, r: Outcome)
    requires |before| <= 1
    ensures |ShownMessages(before, r)| <= 1
    ensures ShownMessages(before, r) != [] <==> !r.valid
    ensures !r.valid ==> ShownMessages(before, r)[0] == Icon + r.message
  {
  }

  /** The state `validateMobileInput` reads and writes: the field's `type`
      and `value`, the `innerHTML` of each `.validation-message` element under
      its parent in document order, and the two style properties. */
  class FormField {
    const inputType: string
    const value: string
    var messages: seq<string>
    var borderColor: string
    var backgroundColor: string

    constructor (inputType: string, value: string)
      ensures this.inputType == inputType && this.value == value
      ensures messages == [] && borderColor == "" && backgroundColor == ""
    {
      this.inputType := inputType;
      this.value := value;
      messages := [];
      borderColor := "";
      backgroundColor := "";
    }

    /** `validateMobileInput(input)`: the trimmed value is checked by the
        rule for the field's type, and the page shows the verdict. */
    method ValidateMobileInput() returns (r: Outcome)
      modifies this`messages, this`borderColor, this`backgroundColor
      ensures r == Validate(inputType, value)
      ensures messages == ShownMessages(old(messages), r)
      ensures borderColor == (if r.valid then "#4CAF50" else "#f44336")
      ensures backgroundColor == (if r.valid then "white" else "#fff5f5")
    {
      r := Validate(inputType, value);
      ShowVerdict(r);
    }

    /** The second half of `validateMobileInput`: `querySelector` finds the
        first message element; a missing one is created for an invalid value,
        an existing one is removed for a valid value or rewritten for an
        invalid one; the border and background show the verdict. */
    method ShowVerdict(r: Outcome)
      modifies this`messages, this`borderColor, this`backgroundColor
      ensures messages == ShownMessages(old(messages), r)
      ensures borderColor == (if r.valid then "#4CAF50" else "#f44336")
      ensures backgroundColor == (if r.valid then "white" else "#fff5f5")
    {
      if messages == [] && !r.valid {
        messages := messages + [Icon + r.message];
      } else if messages != [] && r.valid {
        messages := messages[1..];
      } else if messages != [] && !r.valid {
        messages := [Icon + r.message] + messages[1..];
      }
      borderColor := if r.valid then "#4CAF50" else "#f44336";
      backgroundColor := if r.valid then "white" else "#fff5f5";
    }
  }
}
