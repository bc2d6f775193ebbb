/**
 * The checked-state logic of `MatSlideToggle` (src/material/slide-toggle/slide-toggle.ts):
 * the component's `checked` flag, the hidden input's `checked` flag, the events that
 * move them, the unique id counter, the input id and the initial tab index.
 *
 * Every event is a function from the old state to the new state together with the ordered
 * list of notifications it emits. `coerceBooleanProperty`, used by the `checked` setter,
 * is applied here only to booleans, for which it returns its argument.
 */
module SlideToggle {
  import opened Wrappers
  import opened Strings

  /** What an event notifies, in order: the forms callback and the two outputs. */
  datatype Emission =
    | OnChange(value: bool)   // the `_onChange` callback registered by the forms API
    | Change(checked: bool)   // the `change` output, a `MatSlideToggleChange`
    | ToggleChange            // the `toggleChange` output

  /**
   * One slide toggle. `id` is the `id` input (`None` when bound to null), `uniqueId` the
   * generated id, `inputChecked` the `checked` property of the hidden input element.
   */
  datatype Toggle = Toggle(
    checked: bool,
    inputChecked: bool,
    id: Option<string>,
    uniqueId: string,
    tabIndex: int)

  /** The result of an event: the new state and the notifications in emission order. */
  datatype Step = Step(toggle: Toggle, emitted: seq<Emission>)

  /** `toggle()`: flip `checked` and tell the forms API; no output fires. */
  function Flip(t: Toggle): (r: Step)
    ensures r.toggle.checked != t.checked
    ensures r.toggle == t.(checked := r.toggle.checked)
    ensures r.emitted == [OnChange(r.toggle.checked)]
    ensures Change(r.toggle.checked) !in r.emitted && ToggleChange !in r.emitted
  {
    var now := !t.checked;
    Step(t.(checked := now), [OnChange(now)])
  }

  /** A JavaScript value as handed to `writeValue` by the forms API. */
  datatype JsValue = Undefined | Null | Bool(b: bool) | Num(n: int) | NaN | Str(s: string) | Object

  /** `!!v`. */
  predicate Truthy(v: JsValue)
  {
    match v
    case Undefined => false
    case Null => false
    case Bool(b) => b
    case Num(n) => n != 0
    case NaN => false
    case Str(s) => s != ""
    case Object => true
  }

  /** `writeValue(value)`: a programmatic write emits nothing. */
  function WriteValue(t: Toggle, value: JsValue): (r: Step)
    ensures r.toggle == t.(checked := r.toggle.checked)
    ensures r.toggle.checked <==> Truthy(value)
    ensures r.emitted == []
  {
    Step(t.(checked := Truthy(value)), [])
  }

  /** `_emitChangeEvent()`: the forms callback first, then the `change` output, same value. */
  function EmitChangeEvent(t: Toggle): (r: seq<Emission>)
    ensures |r| == 2 && r[0].OnChange? && r[1].Change?
    ensures r[0].value == t.checked && r[1].checked == t.checked
  {
    [OnChange(t.checked), Change(t.checked)]
  }

  /**
   * `_onChangeEvent(event)`: the hidden input fired `change`. `disableToggleValue` is the
   * option of the same name from the injected defaults.
   */
  function OnChangeEvent(t: Toggle, disableToggleValue: bool): (r: Step)
    ensures |r.emitted| > 0 && r.emitted[0] == ToggleChange
    // Either way the input and the component agree afterwards.
    ensures r.toggle.inputChecked == r.toggle.checked
    ensures disableToggleValue ==>
      r.toggle == t.(inputChecked := t.checked) && r.emitted == [ToggleChange]
    ensures !disableToggleValue ==>
      && r.toggle == t.(checked := t.inputChecked)
      && r.emitted == [ToggleChange, OnChange(t.inputChecked), Change(t.inputChecked)]
  {
    if disableToggleValue then
      Step(t.(inputChecked := t.checked), [ToggleChange])
    else
      var synced := t.(checked := t.inputChecked);
      Step(synced, [ToggleChange] + EmitChangeEvent(synced))
  }

  /** The user clicks the hidden checkbox: the browser flips it, then fires `change`. */
  function UserClick(t: Toggle, disableToggleValue: bool): (r: Step)
    requires t.inputChecked == t.checked
    ensures disableToggleValue ==> r.toggle == t && r.emitted == [ToggleChange]
    ensures !disableToggleValue ==>
      && r.toggle.checked == !t.checked
      && r.emitted == [ToggleChange, OnChange(!t.checked), Change(!t.checked)]
  {
    OnChangeEvent(t.(inputChecked := !t.inputChecked), disableToggleValue)
  }

  /** `get inputId()`: the `id` input if truthy, else the generated id, suffixed "-input". */
  function InputId(t: Toggle): (r: string)
    ensures TruthyText(t.id) ==> r == t.id.value + "-input"
    ensures !TruthyText(t.id) ==> r == t.uniqueId + "-input"
  {
    var base := if TruthyText(t.id) then t.id.value else t.uniqueId;
    base + "-input"
  }

  /** The prefix of every generated id. */
  const IdPrefix: string := "mat-slide-toggle-"

  /**
   * The generated id for counter value `n`: the prefix, then decimal digits that read back
   * as `n`.
   */
  function UniqueId(n: nat): (r: string)
    ensures |r| > |IdPrefix| && r[..|IdPrefix|] == IdPrefix
    ensures forall k :: |IdPrefix| <= k < |r| ==> IsDigit(r[k])
    ensures DecimalValue(r[|IdPrefix|..]) == n
  {
    var r := IdPrefix + NatToString(n);
    assert r[|IdPrefix|..] == NatToString(n);
    DecimalRoundTrip(n);
    r
  }

  /** Different counter values give different ids. */
  lemma UniqueIdInjective(a: nat, b: nat)
    requires a != b
    ensures UniqueId(a) != UniqueId(b)
  {
  }

  // ---------------------------------------------------------------------------------------
  // `parseInt` on the `tabindex` attribute
  // ---------------------------------------------------------------------------------------

  /** The ASCII white space `parseInt` skips before the number. */
  predicate IsSpace(c: char)
  {
    c == ' ' || c == '\t' || c == '\n' || c == '\r' || c == '\U{000B}' || c == '\U{000C}'
  }

  function TrimStart(s: string): (r: string)
    ensures |r| <= |s| && r == s[|s| - |r|..]
    ensures |r| > 0 ==> !IsSpace(r[0])
  {
    if |s| > 0 && IsSpace(s[0]) then TrimStart(s[1..]) else s
  }

  /** The longest prefix of decimal digits. */
  function LeadingDigits(s: string): (r: string)
    ensures |r| <= |s| && r == s[..|r|]
    ensures forall k :: 0 <= k < |r| ==> IsDigit(r[k])
    ensures |r| < |s| ==> !IsDigit(s[|r|])
  {
    if |s| > 0 && IsDigit(s[0]) then [s[0]] + LeadingDigits(s[1..]) else []
  }

  predicate IsHexDigit(c: char)
  {
    IsDigit(c) || 'a' <= c <= 'f' || 'A' <= c <= 'F'
  }

  function HexDigitValue(c: char): (d: nat)
    requires IsHexDigit(c)
    ensures d < 16
  {
    if IsDigit(c) then DigitValue(c)
    else if 'a' <= c <= 'f' then (c as int - 'a' as int + 10) as nat
    else (c as int - 'A' as int + 10) as nat
  }

  /** The longest prefix of hexadecimal digits. */
  function LeadingHexDigits(s: string): (r: string)
    ensures |r| <= |s| && r == s[..|r|]
    ensures forall k :: 0 <= k < |r| ==> IsHexDigit(r[k])
  {
    if |s| > 0 && IsHexDigit(s[0]) then [s[0]] + LeadingHexDigits(s[1..]) else []
  }

  function HexValue(s: string): (v: nat)
    requires forall k :: 0 <= k < |s| ==> IsHexDigit(s[k])
  {
    if |s| == 0 then 0 else HexValue(s[..|s| - 1]) * 16 + HexDigitValue(s[|s| - 1])
  }

  /** A run of digits after an optional sign: hexadecimal after "0x" or "0X", else decimal. */
  function ParseUnsigned(body: string): (r: Option<nat>)
    ensures r.Some? ==> |body| > 0 && IsDigit(body[0])
    ensures |body| > 0 && IsDigit(body[0]) && !(|body| >= 2 && body[0] == '0' && (body[1] == 'x' || body[1] == 'X')) ==>
      r == Some(DecimalValue(LeadingDigits(body)))
  {
    if |body| >= 2 && body[0] == '0' && (body[1] == 'x' || body[1] == 'X') then
      var h := LeadingHexDigits(body[2..]);
      if |h| == 0 then None else Some(HexValue(h))
    else
      ParseDecimal(body)
  }

  function ParseDecimal(body: string): (r: Option<nat>)
    ensures r.Some? <==> |body| > 0 && IsDigit(body[0])
    ensures r.Some? ==> r.value == DecimalValue(LeadingDigits(body))
  {
    var d := LeadingDigits(body);
    if |d| == 0 then None else Some(DecimalValue(d))
  }

  /** The number at the start of text without leading white space: an optional sign, then digits. */
  function ParseSigned(t: string): (r: Option<int>)
    ensures r.Some? ==>
      || (|t| > 0 && IsDigit(t[0]))
      || (|t| > 1 && (t[0] == '-' || t[0] == '+') && IsDigit(t[1]))
  {
    if |t| > 0 && t[0] == '-' then
      match ParseUnsigned(t[1..])
      case None => None
      case Some(n) => Some(-(n as int))
    else if |t| > 0 && t[0] == '+' then
      match ParseUnsigned(t[1..])
      case None => None
      case Some(n) => Some(n)
    else
      match ParseUnsigned(t)
      case None => None
      case Some(n) => Some(n)
  }

  /**
   * `parseInt(s)` with no radix; `None` is NaN. Blank text is NaN, a number needs a digit,
   * and text opening with a decimal digit (and no "0x") reads its leading digits.
   */
  function ParseInt(s: string): (r: Option<int>)
    ensures (forall k :: 0 <= k < |s| ==> IsSpace(s[k])) ==> r.None?
    ensures r.Some? ==> exists k :: 0 <= k < |s| && IsDigit(s[k])
    ensures |s| > 0 && IsDigit(s[0]) && !(|s| >= 2 && s[0] == '0' && (s[1] == 'x' || s[1] == 'X')) ==>
      r == Some(DecimalValue(LeadingDigits(s)))
  {
    ParseIntFacts(s);
    ParseSigned(TrimStart(s))
  }

  /** The three facts `ParseInt` promises, stated of the parse it performs. */
  lemma ParseIntFacts(s: string)
    ensures (forall k :: 0 <= k < |s| ==> IsSpace(s[k])) ==> ParseSigned(TrimStart(s)).None?
    ensures ParseSigned(TrimStart(s)).Some? ==> exists k :: 0 <= k < |s| && IsDigit(s[k])
    ensures |s| > 0 && IsDigit(s[0]) && !(|s| >= 2 && s[0] == '0' && (s[1] == 'x' || s[1] == 'X')) ==>
      ParseSigned(TrimStart(s)) == Some(DecimalValue(LeadingDigits(s)))
  {
    if forall k :: 0 <= k < |s| ==> IsSpace(s[k]) {
      BlankIsNaN(s);
    }
    var t := TrimStart(s);
    if ParseSigned(t).Some? {
      DigitInSuffix(s, t, if |t| > 0 && IsDigit(t[0]) then 0 else 1);
    }
    if |s| > 0 && IsDigit(s[0]) && !(|s| >= 2 && s[0] == '0' && (s[1] == 'x' || s[1] == 'X')) {
      DigitStart(s);
    }
  }

  lemma BlankIsNaN(s: string)
    requires forall k :: 0 <= k < |s| ==> IsSpace(s[k])
    ensures ParseSigned(TrimStart(s)).None?
  {
    assert TrimStart(s) == [];
  }

  /** A digit of a suffix is a digit of the whole text. */
  lemma DigitInSuffix(s: string, t: string, j: nat)
    requires |t| <= |s| && t == s[|s| - |t|..]
    requires j < |t| && IsDigit(t[j])
    ensures exists k :: 0 <= k < |s| && IsDigit(s[k])
  {
    assert s[|s| - |t| + j] == t[j];
  }

  /** Text that opens with a decimal digit, and not with "0x", reads its leading digits. */
  lemma DigitStart(s: string)
    requires |s| > 0 && IsDigit(s[0]) && !(|s| >= 2 && s[0] == '0' && (s[1] == 'x' || s[1] == 'X'))
    ensures ParseSigned(TrimStart(s)) == Some(DecimalValue(LeadingDigits(s)))
  {
    TrimDigits(s);
  }

  /** The constructor's `parseInt(tabIndex) || 0`. */
  function InitialTabIndex(attribute: Option<string>): (r: int)
    ensures attribute.None? ==> r == 0
    ensures attribute.Some? ==>
      match ParseInt(attribute.value)
      case None => r == 0
      case Some(n) => r == n
  {
    match attribute
    case None => NullIsNaN(); 0
    case Some(text) =>
      match ParseInt(text)
      case None => 0
      case Some(n) => if n == 0 then 0 else n
  }

  /** A missing attribute is `null`, which `parseInt` reads as the text "null": NaN. */
  lemma NullIsNaN()
    ensures ParseInt("null") == None
  {
    assert TrimStart("null") == "null";
    assert LeadingDigits("null") == [];
  }

  /** Rendering a number into the attribute and reading it back gives the number. */
  lemma TabIndexRoundTrip(n: nat)
    ensures InitialTabIndex(Some(NatToString(n))) == n
  {
    ParseDigits(NatToString(n));
    DecimalRoundTrip(n);
  }

  /** `parseInt` of a plain run of decimal digits is their decimal value. */
  lemma ParseDigits(s: string)
    requires |s| > 0 && forall k :: 0 <= k < |s| ==> IsDigit(s[k])
    ensures ParseInt(s) == Some(DecimalValue(s))
  {
    TrimDigits(s);
    UnsignedDigits(s);
    DecimalDigits(s);
    UnsignedUnchanged(s, DecimalValue(s));
  }

  lemma DecimalDigits(s: string)
    requires |s| > 0 && forall k :: 0 <= k < |s| ==> IsDigit(s[k])
    ensures ParseDecimal(s) == Some(DecimalValue(s))
  {
    LeadingDigitsOfDigits(s);
  }

  lemma UnsignedUnchanged(s: string, v: nat)
    requires |s| > 0 && s[0] != '-' && s[0] != '+'
    requires TrimStart(s) == s
    requires ParseUnsigned(s) == Some(v)
    ensures ParseInt(s) == Some(v)
  {
  }

  lemma TrimDigits(s: string)
    requires |s| > 0 && IsDigit(s[0])
    ensures TrimStart(s) == s
  {
  }

  lemma UnsignedDigits(s: string)
    requires |s| > 1 ==> IsDigit(s[1])
    ensures ParseUnsigned(s) == ParseDecimal(s)
  {
  }

  lemma {:induction false} LeadingDigitsOfDigits(s: string)
    requires forall k :: 0 <= k < |s| ==> IsDigit(s[k])
    ensures LeadingDigits(s) == s
  {
    if |s| > 0 {
      LeadingDigitsOfDigits(s[1..]);
    }
  }

  /** A newly constructed slide toggle and the module-level counter after it. */
  datatype Created = Created(toggle: Toggle, nextUniqueId: nat)

  /**
   * The constructor and field initialisers: the counter is incremented before its value
   * is used, the `id` input defaults to the generated id, and nothing is checked yet.
   */
  function Construct(nextUniqueId: nat, tabIndexAttribute: Option<string>): (r: Created)
    ensures r.nextUniqueId == nextUniqueId + 1
    ensures r.toggle.uniqueId == UniqueId(r.nextUniqueId)
    ensures r.toggle.id == Some(r.toggle.uniqueId)
    ensures !r.toggle.checked
    ensures r.toggle.tabIndex == InitialTabIndex(tabIndexAttribute)
  {
    var n := nextUniqueId + 1;
    Created(Toggle(false, false, Some(UniqueId(n)), UniqueId(n), InitialTabIndex(tabIndexAttribute)), n)
  }

  /** Creating `count` toggles in a row, each with the counter left by the previous one. */
  function ConstructMany(nextUniqueId: nat, count: nat): (r: seq<Created>)
    decreases count
    ensures |r| == count
    ensures forall k :: 0 <= k < count ==> r[k].nextUniqueId == nextUniqueId + k + 1
    ensures forall k :: 0 <= k < count ==> r[k].toggle.uniqueId == UniqueId(r[k].nextUniqueId)
    ensures forall k :: 0 <= k < count ==> r[k].toggle.id == Some(r[k].toggle.uniqueId)
  {
    if count == 0 then []
    else
      var first := Construct(nextUniqueId, None);
      var rest := ConstructMany(first.nextUniqueId, count - 1);
      var r := [first] + rest;
      assert forall k :: 1 <= k < count ==> r[k] == rest[k - 1];
      r
  }

  /** Toggles created one after another never share a generated id. */
  lemma GeneratedIdsDistinct(nextUniqueId: nat, count: nat, i: nat, j: nat)
    requires i < j < count
    ensures ConstructMany(nextUniqueId, count)[i].toggle.uniqueId
         != ConstructMany(nextUniqueId, count)[j].toggle.uniqueId
  {
    UniqueIdInjective(nextUniqueId + i + 1, nextUniqueId + j + 1);
  }

  /** Toggles created one after another never share an input id. */
  lemma InputIdsDistinct(nextUniqueId: nat, count: nat, i: nat, j: nat)
    requires i < j < count
    ensures InputId(ConstructMany(nextUniqueId, count)[i].toggle)
         != InputId(ConstructMany(nextUniqueId, count)[j].toggle)
  {
    var ti, tj := ConstructMany(nextUniqueId, count)[i].toggle, ConstructMany(nextUniqueId, count)[j].toggle;
    GeneratedIdsDistinct(nextUniqueId, count, i, j);
    assert InputId(ti) == ti.uniqueId + "-input" && InputId(tj) == tj.uniqueId + "-input";
    if InputId(ti) == InputId(tj) {
      SuffixCancel(ti.uniqueId, tj.uniqueId, "-input");
    }
  }

  /** A `-` sign before decimal digits negates their value. */
  lemma NegativeDigits(x: string)
    requires |x| > 1 && x[0] == '-' && forall k :: 1 <= k < |x| ==> IsDigit(x[k])
    ensures ParseInt(x) == Some(-(DecimalValue(x[1..]) as int))
  {
    assert TrimStart(x) == x;
    UnsignedOfDigits(x[1..]);
    NegativeText(x);
  }

  /** Text that starts with `-` after trimming reads the unsigned number after the sign, negated. */
  lemma NegativeText(x: string)
    requires |x| > 0 && x[0] == '-' && TrimStart(x) == x
    requires ParseUnsigned(x[1..]).Some?
    ensures ParseInt(x) == Some(-(ParseUnsigned(x[1..]).value as int))
  {
  }

  lemma UnsignedOfDigits(s: string)
    requires |s| > 0 && forall k :: 0 <= k < |s| ==> IsDigit(s[k])
    ensures ParseUnsigned(s) == Some(DecimalValue(s))
  {
    UnsignedDigits(s);
    DecimalDigits(s);
  }

  /** White space before the number does not change what `parseInt` reads. */
  lemma LeadingSpaceIgnored(c: char, s: string)
    requires IsSpace(c)
    ensures ParseInt([c] + s) == ParseInt(s)
  {
    var x := [c] + s;
    assert x[0] == c && x[1..] == s;
    assert TrimStart(x) == TrimStart(s);
  }

  /** A programmatic write alone decides `checked`: an earlier `toggle()` or write is overridden. */
  lemma WriteValueOverrides(t: Toggle, v: JsValue, w: JsValue)
    ensures WriteValue(Flip(t).toggle, v).toggle == WriteValue(t, v).toggle
    ensures WriteValue(WriteValue(t, w).toggle, v).toggle == WriteValue(t, v).toggle
  {
  }

  /** Writing a boolean sets `checked` to exactly that boolean. */
  lemma WriteBoolean(t: Toggle, b: bool)
    ensures WriteValue(t, Bool(b)).toggle.checked == b
  {
  }

  /** Every `onChange` and `change` notification carries the `checked` state the event leaves. */
  predicate ReportsState(r: Step)
  {
    forall k :: 0 <= k < |r.emitted| ==>
      && (r.emitted[k].OnChange? ==> r.emitted[k].value == r.toggle.checked)
      && (r.emitted[k].Change? ==> r.emitted[k].checked == r.toggle.checked)
  }

  /** No event reports a value other than the state it leaves behind. */
  lemma EventsReportState(t: Toggle, disableToggleValue: bool, v: JsValue)
    ensures ReportsState(Flip(t)) && ReportsState(WriteValue(t, v))
    ensures ReportsState(OnChangeEvent(t, disableToggleValue))
    ensures t.inputChecked == t.checked ==> ReportsState(UserClick(t, disableToggleValue))
  {
  }

  /** `toggle()` twice restores `checked` and reports both values in turn. */
  lemma FlipTwice(t: Toggle)
    ensures Flip(Flip(t).toggle).toggle == t
    ensures Flip(t).emitted + Flip(Flip(t).toggle).emitted == [OnChange(!t.checked), OnChange(t.checked)]
  {
  }
}
