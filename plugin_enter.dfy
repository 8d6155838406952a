/**
 * The activation handler `handlePluginEnter` (preload.js): after its
 * settling delay it resets the transient panel state and, for the "convert"
 * and "currentTime" actions, fills the timestamp field and clicks Convert.
 * The panel is abstracted to the state this handler reads and writes.
 */
module PluginEnter {

  /** An activation action from the host; an absent payload is "". */
  datatype Action = Action(code: string, payload: string)

  datatype Toast = NoToastElement | ToastElement(hidden: bool)

  /**
   * What the handler touches: whether the timestamp field and the Convert
   * button exist, the field's border colour and text, the toast, the text of
   * the result elements present (by element id), and how many times Convert
   * has been clicked.
   */
  datatype Panel = Panel(
    controlsPresent: bool,
    border: string,
    input: string,
    toast: Toast,
    results: map<string, string>,
    convertClicks: nat)

  const NeutralBorder: string := "#e0e6ed"

  /** The result elements blanked on activation. */
  const PrimaryResults: seq<string> := ["standardFormat", "dateFormat", "timeFormat"]

  const Blank: string := "-"

  // ----- The payload pattern /^\d{10,13}$/ -----

  predicate IsDigit(c: char) {
    '0' <= c <= '9'
  }

  /** The pattern's meaning: 10 to 13 characters, every one a decimal digit. */
  ghost predicate IsTimestampText(s: string) {
    10 <= |s| <= 13 && forall i :: 0 <= i < |s| ==> IsDigit(s[i])
  }

  /**
   * Matching `\d{lo,hi}` against all of s, one character at a time as a
   * backtracking-free matcher for a single bounded repetition would.
   */
  function MatchDigits(s: string, lo: nat, hi: nat): (m: bool)
    ensures m <==> lo <= |s| <= hi && forall i :: 0 <= i < |s| ==> IsDigit(s[i])
  {
    if |s| == 0 then lo == 0
    else hi > 0 && IsDigit(s[0]) && MatchDigits(s[1..], if lo > 0 then lo - 1 else 0, hi - 1)
  }

  /** `/^\d{10,13}$/.test(payload)`. */
  function PayloadMatches(payload: string): (m: bool)
    ensures m <==> IsTimestampText(payload)
  {
    MatchDigits(payload, 10, 13)
  }

  // ----- Date.now().toString() -----

  function DigitChar(d: nat): (c: char)
    requires d < 10
    ensures IsDigit(c) && DigitValue(c) == d
  {
    ['0', '1', '2', '3', '4', '5', '6', '7', '8', '9'][d]
  }

  /** The decimal text of a non-negative integer, without leading zeros. */
  function DecimalString(n: nat): (s: string)
    ensures |s| >= 1
    ensures forall i :: 0 <= i < |s| ==> IsDigit(s[i])
    ensures |s| > 1 ==> s[0] != '0'
  {
    if n < 10 then [DigitChar(n)] else DecimalString(n / 10) + [DigitChar(n % 10)]
  }

  function DigitValue(c: char): nat
    requires IsDigit(c)
  {
    c as int - '0' as int
  }

  /** The value of a string of decimal digits. */
  function DecimalValue(s: string): nat
    requires forall i :: 0 <= i < |s| ==> IsDigit(s[i])
  {
    if |s| == 0 then 0 else 10 * DecimalValue(s[..|s| - 1]) + DigitValue(s[|s| - 1])
  }

  /** Reading the decimal text back gives the number. */
  lemma {:induction false} DecimalRoundTrip(n: nat)
    ensures DecimalValue(DecimalString(n)) == n
  {
    var s := DecimalString(n);
    if n >= 10 {
      DecimalRoundTrip(n / 10);
      assert s[..|s| - 1] == DecimalString(n / 10);
    }
  }

  function Pow10(k: nat): (p: nat)
    ensures p >= 1
  {
    if k == 0 then 1 else 10 * Pow10(k - 1)
  }

  /** A number with k digits has decimal text of length k. */
  lemma {:induction false} DecimalLength(n: nat, k: nat)
    requires k >= 1 && Pow10(k - 1) <= n < Pow10(k)
    ensures |DecimalString(n)| == k
  {
    if k > 1 {
      assert n >= 10;
      DecimalLength(n / 10, k - 1);
    }
  }

  /**
   * A present-day millisecond clock reading (13 digits) written out as the
   * "currentTime" action does would also pass the "convert" payload check.
   */
  lemma ClockTextMatchesPattern(nowMs: nat)
    requires Pow10(12) <= nowMs < Pow10(13)
    ensures PayloadMatches(DecimalString(nowMs))
  {
    DecimalLength(nowMs, 13);
  }

  // ----- The handler -----

  /** clearPreviousState: neutral border, toast hidden, primary results blanked. */
  function ClearState(p: Panel): (q: Panel)
    ensures q.controlsPresent == p.controlsPresent && q.input == p.input && q.convertClicks == p.convertClicks
    ensures q.border == NeutralBorder
    ensures q.toast == if p.toast.NoToastElement? then NoToastElement else ToastElement(true)
    ensures q.results.Keys == p.results.Keys
    ensures forall id :: id in q.results ==> q.results[id] == if id in PrimaryResults then Blank else p.results[id]
  {
    var toast := if p.toast.NoToastElement? then NoToastElement else ToastElement(true);
    var results := map id | id in p.results :: if id in PrimaryResults then Blank else p.results[id];
    p.(border := NeutralBorder, toast := toast, results := results)
  }

  /** Put text in the timestamp field and click Convert. */
  function EnterAndConvert(p: Panel, text: string): Panel {
    p.(input := text, convertClicks := p.convertClicks + 1)
  }

  /**
   * handlePluginEnter after its delay: nothing at all without the field and
   * the button; otherwise clear the state, then act on the action code.
   */
  function HandlePluginEnter(action: Action, p: Panel, nowMs: nat): (q: Panel)
    ensures !p.controlsPresent ==> q == p
    ensures p.controlsPresent ==> q.(input := p.input, convertClicks := p.convertClicks) == ClearState(p)
    ensures p.controlsPresent ==>
      && q.controlsPresent
      && q.border == NeutralBorder
      && (q.toast.NoToastElement? <==> p.toast.NoToastElement?)
      && q.toast != ToastElement(false)
      && q.results.Keys == p.results.Keys
      && (forall id :: id in q.results ==> q.results[id] == if id in PrimaryResults then Blank else p.results[id])
    ensures p.controlsPresent && action.code == "convert" && IsTimestampText(action.payload) ==>
      q.input == action.payload && q.convertClicks == p.convertClicks + 1
    ensures p.controlsPresent && action.code == "currentTime" ==>
      q.input == DecimalString(nowMs) && q.convertClicks == p.convertClicks + 1
    ensures
      !p.controlsPresent
      || (action.code == "convert" && !IsTimestampText(action.payload))
      || (action.code != "convert" && action.code != "currentTime")
      ==> q.input == p.input && q.convertClicks == p.convertClicks
  {
    if !p.controlsPresent then p
    else
      var cleared := ClearState(p);
      if action.code == "convert" then
        if |action.payload| > 0 && PayloadMatches(action.payload) then EnterAndConvert(cleared, action.payload)
        else cleared
      else if action.code == "currentTime" then
        EnterAndConvert(cleared, DecimalString(nowMs))
      else
        cleared
  }

  /** Activation clicks Convert at most once, and only for the two known codes. */
  lemma ConvertAtMostOnce(action: Action, p: Panel, nowMs: nat)
    ensures var q := HandlePluginEnter(action, p, nowMs);
      q.convertClicks == p.convertClicks || q.convertClicks == p.convertClicks + 1
    ensures (HandlePluginEnter(action, p, nowMs).convertClicks == p.convertClicks + 1) <==>
      (p.controlsPresent && (action.code == "currentTime" || (action.code == "convert" && IsTimestampText(action.payload))))
  {
  }

  /** Handling the same action twice leaves the state of handling it once, except for the clicks. */
  lemma HandleTwiceSameFields(action: Action, p: Panel, nowMs: nat)
    ensures var once := HandlePluginEnter(action, p, nowMs);
      var twice := HandlePluginEnter(action, once, nowMs);
      twice.(convertClicks := once.convertClicks) == once
  {
    var once := HandlePluginEnter(action, p, nowMs);
    var twice := HandlePluginEnter(action, once, nowMs);
    if p.controlsPresent {
      assert twice.results == once.results;
    }
  }

  /** A paste of "1609459200" as a convert action fills the field and converts. */
  lemma ConvertExample(p: Panel, nowMs: nat)
    requires p.controlsPresent
    ensures HandlePluginEnter(Action("convert", "1609459200"), p, nowMs).input == "1609459200"
    ensures HandlePluginEnter(Action("convert", "1609459200"), p, nowMs).convertClicks == p.convertClicks + 1
  {
  }

  /** A nine-digit payload is ignored. */
  lemma ShortPayloadIgnored(p: Panel, nowMs: nat)
    requires p.controlsPresent
    ensures HandlePluginEnter(Action("convert", "160945920"), p, nowMs).input == p.input
    ensures HandlePluginEnter(Action("convert", "160945920"), p, nowMs).convertClicks == p.convertClicks
  {
  }
}
