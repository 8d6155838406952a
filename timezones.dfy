/**
 * The timezone selector of `window.timestampAPI` (preload.js): the option
 * list of getTimezones, the option built by _createTimezoneOption and the
 * label text of _getTimezoneFriendlyName.
 *
 * The runtime's time-zone database is abstracted as three inputs:
 * `all`, the enumeration Intl.supportedValuesOf('timeZone') returns;
 * `formattable`, the zones for which constructing a zoned formatter succeeds
 * (for any other zone _createTimezoneOption catches the error and drops it);
 * `offset`, the opaque UTC-offset text the formatter gives for a zone.
 */
module Timezones {
  import opened Wrappers
  import JsSort

  /** The curated zones shown first, in this fixed order. */
  const Popular: seq<string> := [
    "UTC",
    "Asia/Shanghai",
    "America/New_York",
    "Europe/London",
    "Asia/Tokyo",
    "Australia/Sydney",
    "America/Los_Angeles",
    "Europe/Paris",
    "Asia/Seoul",
    "Asia/Singapore",
    "America/Chicago",
    "Europe/Berlin",
    "Asia/Kolkata",
    "America/Sao_Paulo",
    "Africa/Cairo"
  ]

  /** Curated display names. */
  const FriendlyNames: map<string, string> := map[
    "UTC" := "UTC 协调世界时",
    "Asia/Shanghai" := "北京时间",
    "America/New_York" := "纽约时间",
    "Europe/London" := "伦敦时间",
    "Asia/Tokyo" := "东京时间",
    "Australia/Sydney" := "悉尼时间",
    "America/Los_Angeles" := "洛杉矶时间",
    "Europe/Paris" := "巴黎时间",
    "Asia/Seoul" := "首尔时间",
    "Asia/Singapore" := "新加坡时间",
    "America/Chicago" := "芝加哥时间",
    "Europe/Berlin" := "柏林时间",
    "Asia/Kolkata" := "新德里时间",
    "America/Sao_Paulo" := "圣保罗时间",
    "Africa/Cairo" := "开罗时间"
  ]

  const SeparatorLabel: string := "─────── 其他时区 ───────"

  /** An entry of the selector; the separator has no group and is the only disabled entry. */
  datatype TzOption = TzOption(text: string, value: string, group: Option<string>, disabled: bool)

  const Separator: TzOption := TzOption(SeparatorLabel, "", None, true)

  // ----- Strings of a zone id -----

  /** `tz.split('/')[0]`: the text before the first '/', the whole id when it has none. */
  function Region(tz: string): (r: string)
    ensures r <= tz
    ensures '/' !in r
    ensures |r| < |tz| ==> tz[|r|] == '/'
  {
    if |tz| == 0 || tz[0] == '/' then "" else [tz[0]] + Region(tz[1..])
  }

  /** `tz.split('/').pop()`: the text after the last '/', the whole id when it has none. */
  function LastSegment(tz: string): (r: string)
    ensures |r| <= |tz| && r == tz[|tz| - |r|..]
    ensures '/' !in r
    ensures |r| < |tz| ==> tz[|tz| - |r| - 1] == '/'
  {
    if |tz| == 0 || tz[|tz| - 1] == '/' then ""
    else
      var r := LastSegment(tz[..|tz| - 1]) + [tz[|tz| - 1]];
      assert tz == tz[..|tz| - 1] + [tz[|tz| - 1]];
      r
  }

  /** `s.replace(/_/g, ' ')`: every underscore becomes a space, nothing else changes. */
  function ReplaceUnderscores(s: string): (r: string)
    ensures |r| == |s|
    ensures forall i :: 0 <= i < |s| ==> r[i] == if s[i] == '_' then ' ' else s[i]
  {
    if |s| == 0 then "" else [if s[0] == '_' then ' ' else s[0]] + ReplaceUnderscores(s[1..])
  }

  /**
   * _getTimezoneFriendlyName: the curated name when there is one; otherwise the
   * last path segment with underscores shown as spaces, which therefore holds
   * neither '/' nor '_'.
   */
  function FriendlyName(tz: string): (r: string)
    ensures tz in FriendlyNames ==> r == FriendlyNames[tz]
    ensures tz !in FriendlyNames ==> '/' !in r && '_' !in r
  {
    if tz in FriendlyNames then FriendlyNames[tz]
    else
      var segment := LastSegment(tz);
      var r := ReplaceUnderscores(segment);
      assert '_' !in r && '/' !in r by {
        forall i | 0 <= i < |r| ensures r[i] != '_' && r[i] != '/' {
          assert segment[i] in segment;
        }
      }
      r
  }

  /** The fallback name, character by character: the last segment with '_' shown as ' '. */
  lemma FriendlyNameFallback(tz: string)
    requires tz !in FriendlyNames
    ensures |FriendlyName(tz)| == |LastSegment(tz)|
    ensures forall i :: 0 <= i < |LastSegment(tz)| ==>
      FriendlyName(tz)[i] == if LastSegment(tz)[i] == '_' then ' ' else LastSegment(tz)[i]
  {
  }

  /** The curated names are exactly those of the popular zones. */
  lemma FriendlyNamesArePopular()
    ensures FriendlyNames.Keys == set z | z in Popular
  {
  }

  // ----- Options -----

  /** The option for a zone the formatter accepts. */
  function MakeOption(tz: string, offset: string -> string): TzOption {
    TzOption(FriendlyName(tz) + " (" + offset(tz) + ")", tz, Some(Region(tz)), false)
  }

  /**
   * _createTimezoneOption: the option for a formattable zone, nothing for a
   * zone whose formatter fails.
   */
  function CreateOption(tz: string, formattable: set<string>, offset: string -> string): (o: Option<TzOption>)
    ensures o.Some? <==> tz in formattable
    ensures o.Some? ==>
      && o.value.value == tz
      && o.value.group == Some(Region(tz))
      && !o.value.disabled
      && o.value.text == FriendlyName(tz) + " (" + offset(tz) + ")"
  {
    if tz in formattable then Some(MakeOption(tz, offset)) else None
  }

  /** The elements of zs that `keep` accepts, in their order in zs. */
  function Filter(zs: seq<string>, keep: string -> bool): (r: seq<string>)
    ensures |r| <= |zs|
  {
    if |zs| == 0 then []
    else
      var init := zs[..|zs| - 1];
      var last := zs[|zs| - 1];
      assert zs == init + [last];
      Filter(init, keep) + (if keep(last) then [last] else [])
  }

  /** Filter keeps exactly the accepted elements, each at most as often as before. */
  lemma {:induction false} FilterMembers(zs: seq<string>, keep: string -> bool)
    ensures forall z :: z in Filter(zs, keep) <==> z in zs && keep(z)
    ensures multiset(Filter(zs, keep)) <= multiset(zs)
  {
    if |zs| > 0 {
      var init, last := zs[..|zs| - 1], zs[|zs| - 1];
      assert zs == init + [last];
      FilterMembers(init, keep);
    }
  }

  /** Filtering one more element of a prefix appends at most that element. */
  lemma FilterPrefixStep(zs: seq<string>, i: nat, keep: string -> bool)
    requires i < |zs|
    ensures Filter(zs[..i + 1], keep) == Filter(zs[..i], keep) + (if keep(zs[i]) then [zs[i]] else [])
  {
    assert zs[..i + 1][..i] == zs[..i];
  }

  /** One option per zone, in order. */
  function OptionsOf(zs: seq<string>, offset: string -> string): (r: seq<TzOption>)
    ensures |r| == |zs|
  {
    if |zs| == 0 then [] else OptionsOf(zs[..|zs| - 1], offset) + [MakeOption(zs[|zs| - 1], offset)]
  }

  /** The i-th option is the option of the i-th zone. */
  lemma {:induction false} OptionsOfAt(zs: seq<string>, offset: string -> string)
    ensures forall i :: 0 <= i < |zs| ==> OptionsOf(zs, offset)[i] == MakeOption(zs[i], offset)
  {
    if |zs| > 0 {
      var init := zs[..|zs| - 1];
      OptionsOfAt(init, offset);
      var r := OptionsOf(zs, offset);
      assert r == OptionsOf(init, offset) + [MakeOption(zs[|zs| - 1], offset)];
      forall i | 0 <= i < |zs| ensures r[i] == MakeOption(zs[i], offset) {
        if i < |zs| - 1 {
          assert r[i] == OptionsOf(init, offset)[i] && zs[i] == init[i];
        }
      }
    }
  }

  lemma OptionsOfSnoc(zs: seq<string>, z: string, offset: string -> string)
    ensures OptionsOf(zs + [z], offset) == OptionsOf(zs, offset) + [MakeOption(z, offset)]
  {
    assert (zs + [z])[..|zs|] == zs;
  }

  /** The option list of a filtered prefix grows by the option of the next kept zone. */
  lemma OptionsOfFilterStep(zs: seq<string>, i: nat, keep: string -> bool, offset: string -> string)
    requires i < |zs|
    ensures OptionsOf(Filter(zs[..i + 1], keep), offset)
         == OptionsOf(Filter(zs[..i], keep), offset) + (if keep(zs[i]) then [MakeOption(zs[i], offset)] else [])
  {
    FilterPrefixStep(zs, i, keep);
    var done := Filter(zs[..i], keep);
    if keep(zs[i]) {
      assert Filter(zs[..i + 1], keep) == done + [zs[i]];
      OptionsOfSnoc(done, zs[i], offset);
    } else {
      assert Filter(zs[..i + 1], keep) == done;
    }
  }

  /** Filter predicates of getTimezones, named so that every use denotes the same function. */
  function Present(all: seq<string>, formattable: set<string>): string -> bool {
    z => z in all && z in formattable
  }

  function Accepted(formattable: set<string>): string -> bool {
    z => z in formattable
  }

  const NotPopular: string -> bool := z => z !in Popular

  const Differ: (string, string) -> bool := (a, b) => a != b

  /** The popular zones the enumeration contains and the formatter accepts, in the fixed order. */
  function PopularZones(all: seq<string>, formattable: set<string>): seq<string> {
    Filter(Popular, Present(all, formattable))
  }

  /** The other enumerated zones, sorted, without those the formatter rejects. */
  function OtherZones(all: seq<string>, formattable: set<string>): seq<string> {
    Filter(JsSort.Sort(Filter(all, NotPopular)), Accepted(formattable))
  }

  /** The list getTimezones returns when the enumeration is available. */
  function TimezoneList(all: seq<string>, formattable: set<string>, offset: string -> string): seq<TzOption> {
    OptionsOf(PopularZones(all, formattable), offset) + [Separator]
      + OptionsOf(OtherZones(all, formattable), offset)
  }

  /**
   * getTimezones: push the options of the popular zones, then the separator,
   * then those of the remaining zones in sorted order.
   */
  method GetTimezones(all: seq<string>, formattable: set<string>, offset: string -> string)
    returns (options: seq<TzOption>)
    ensures options == TimezoneList(all, formattable, offset)
  {
    var present := Present(all, formattable);
    options := [];
    for i := 0 to |Popular|
      invariant options == OptionsOf(Filter(Popular[..i], present), offset)
    {
      var tz := Popular[i];
      OptionsOfFilterStep(Popular, i, present, offset);
      if tz in all {
        var option := CreateOption(tz, formattable, offset);
        if option.Some? {
          assert option.value == MakeOption(tz, offset);
          options := options + [option.value];
        }
      }
    }
    assert Popular[..|Popular|] == Popular;
    assert options == OptionsOf(PopularZones(all, formattable), offset);
    options := options + [Separator];
    var others := JsSort.Sort(Filter(all, NotPopular));
    options := AppendOptions(options, others, formattable, offset);
  }

  /** The second loop of getTimezones: push the option of every formattable zone of `zones`, in order. */
  method AppendOptions(options: seq<TzOption>, zones: seq<string>, formattable: set<string>, offset: string -> string)
    returns (result: seq<TzOption>)
    ensures result == options + OptionsOf(Filter(zones, Accepted(formattable)), offset)
  {
    var accepted := Accepted(formattable);
    var pushed: seq<TzOption> := [];
    for i := 0 to |zones|
      invariant pushed == OptionsOf(Filter(zones[..i], accepted), offset)
    {
      var tz := zones[i];
      OptionsOfFilterStep(zones, i, accepted, offset);
      var option := CreateOption(tz, formattable, offset);
      if option.Some? {
        assert option.value == MakeOption(tz, offset);
        pushed := pushed + [option.value];
      }
    }
    assert zones[..|zones|] == zones;
    result := options + pushed;
  }

  // ----- Properties of the option list -----

  ghost predicate Distinct(s: seq<string>) {
    forall i, j :: 0 <= i < j < |s| ==> s[i] != s[j]
  }

  /** Position of x in s, |s| when absent. */
  function IndexOf(s: seq<string>, x: string): (k: nat)
    ensures k <= |s|
    ensures k < |s| ==> s[k] == x
    ensures x in s <==> k < |s|
  {
    if |s| == 0 then 0 else if s[0] == x then 0 else 1 + IndexOf(s[1..], x)
  }

  /** Filter keeps every pairwise relation that held between the elements it keeps. */
  lemma {:induction false} FilterKeepsPairwise(zs: seq<string>, keep: string -> bool, rel: (string, string) -> bool)
    requires forall i, j :: 0 <= i < j < |zs| ==> rel(zs[i], zs[j])
    ensures forall i, j :: 0 <= i < j < |Filter(zs, keep)| ==> rel(Filter(zs, keep)[i], Filter(zs, keep)[j])
  {
    if |zs| > 0 {
      var init, last := zs[..|zs| - 1], zs[|zs| - 1];
      FilterKeepsPairwise(init, keep, rel);
      FilterMembers(init, keep);
      var f := Filter(init, keep);
      var r := Filter(zs, keep);
      assert r == f + (if keep(last) then [last] else []);
      forall i, j | 0 <= i < j < |r| ensures rel(r[i], r[j]) {
        if j >= |f| {
          assert r[i] == f[i] && r[j] == last;
          assert f[i] in init;
          var k :| 0 <= k < |init| && init[k] == f[i];
          assert zs[k] == f[i] && zs[|zs| - 1] == last;
        } else {
          assert r[i] == f[i] && r[j] == f[j];
        }
      }
    }
  }

  /** In a distinct sequence every element occurs once. */
  lemma {:induction false} DistinctOccursOnce(s: seq<string>)
    requires Distinct(s)
    ensures forall x :: multiset(s)[x] <= 1
  {
    if |s| > 0 {
      var t := s[1..];
      assert Distinct(t) by {
        forall i, j | 0 <= i < j < |t| ensures t[i] != t[j] { assert t[i] == s[i + 1] && t[j] == s[j + 1]; }
      }
      DistinctOccursOnce(t);
      assert s[0] !in t by {
        forall k | 0 <= k < |t| ensures t[k] != s[0] { assert t[k] == s[k + 1]; }
      }
      assert s == [s[0]] + t;
      assert multiset(s) == multiset{s[0]} + multiset(t);
    }
  }

  /** An element found at two positions occurs at least twice. */
  lemma RepeatOccursTwice(s: seq<string>, i: nat, j: nat)
    requires i < j < |s| && s[i] == s[j]
    ensures multiset(s)[s[i]] >= 2
  {
    assert s == s[..j] + s[j..];
    assert multiset(s) == multiset(s[..j]) + multiset(s[j..]);
    assert s[..j][i] == s[i] && s[j..][0] == s[i];
    assert multiset(s[..j])[s[i]] >= 1 && multiset(s[j..])[s[i]] >= 1;
  }

  /** A permutation of a distinct sequence is distinct. */
  lemma PermutationKeepsDistinct(a: seq<string>, b: seq<string>)
    requires multiset(a) == multiset(b) && Distinct(a)
    ensures Distinct(b)
  {
    DistinctOccursOnce(a);
    forall i, j | 0 <= i < j < |b| ensures b[i] != b[j] {
      if b[i] == b[j] {
        RepeatOccursTwice(b, i, j);
        assert false;
      }
    }
  }

  lemma PopularDistinct()
    ensures Distinct(Popular)
  {
  }

  lemma IndexThreeParts<T>(a: seq<T>, x: T, b: seq<T>, i: nat)
    requires i < |a| + 1 + |b|
    ensures (a + [x] + b)[i] == if i < |a| then a[i] else if i == |a| then x else b[i - |a| - 1]
  {
  }

  /**
   * The list has three parts: the options of the popular zones, the
   * separator, the options of the other zones.
   */
  lemma TimezoneListShape(all: seq<string>, formattable: set<string>, offset: string -> string)
    ensures |TimezoneList(all, formattable, offset)|
         == |PopularZones(all, formattable)| + 1 + |OtherZones(all, formattable)|
    ensures TimezoneList(all, formattable, offset)[|PopularZones(all, formattable)|] == Separator
    ensures forall i :: 0 <= i < |PopularZones(all, formattable)| ==>
      TimezoneList(all, formattable, offset)[i] == MakeOption(PopularZones(all, formattable)[i], offset)
    ensures forall i :: |PopularZones(all, formattable)| < i < |TimezoneList(all, formattable, offset)| ==>
      TimezoneList(all, formattable, offset)[i]
        == MakeOption(OtherZones(all, formattable)[i - |PopularZones(all, formattable)| - 1], offset)
  {
    ThreeParts(PopularZones(all, formattable), OtherZones(all, formattable), offset);
  }

  /** TimezoneListShape for any two zone sequences around the separator. */
  lemma ThreeParts(p: seq<string>, o: seq<string>, offset: string -> string)
    ensures |OptionsOf(p, offset) + [Separator] + OptionsOf(o, offset)| == |p| + 1 + |o|
    ensures (OptionsOf(p, offset) + [Separator] + OptionsOf(o, offset))[|p|] == Separator
    ensures forall i :: 0 <= i < |p| ==>
      (OptionsOf(p, offset) + [Separator] + OptionsOf(o, offset))[i] == MakeOption(p[i], offset)
    ensures forall i :: |p| < i < |p| + 1 + |o| ==>
      (OptionsOf(p, offset) + [Separator] + OptionsOf(o, offset))[i] == MakeOption(o[i - |p| - 1], offset)
  {
    var l := OptionsOf(p, offset) + [Separator] + OptionsOf(o, offset);
    OptionsOfAt(p, offset);
    OptionsOfAt(o, offset);
    forall i | 0 <= i < |l| ensures l[i] == if i < |p| then OptionsOf(p, offset)[i]
                                           else if i == |p| then Separator
                                           else OptionsOf(o, offset)[i - |p| - 1] {
      IndexThreeParts(OptionsOf(p, offset), Separator, OptionsOf(o, offset), i);
    }
  }

  /**
   * Every entry but the separator is enabled and carries a zone id as value
   * (the popular zones first, then the others), the region prefix of that id
   * as group and the friendly name with the offset text as label; the
   * separator is the one disabled entry.
   */
  lemma OptionEntries(all: seq<string>, formattable: set<string>, offset: string -> string)
    ensures forall i :: 0 <= i < |PopularZones(all, formattable)| ==>
      TimezoneList(all, formattable, offset)[i].value == PopularZones(all, formattable)[i]
    ensures forall i :: |PopularZones(all, formattable)| < i < |TimezoneList(all, formattable, offset)| ==>
      TimezoneList(all, formattable, offset)[i].value
        == OtherZones(all, formattable)[i - |PopularZones(all, formattable)| - 1]
    ensures forall i :: 0 <= i < |TimezoneList(all, formattable, offset)| ==>
      (TimezoneList(all, formattable, offset)[i].disabled <==> i == |PopularZones(all, formattable)|)
    ensures forall i :: 0 <= i < |TimezoneList(all, formattable, offset)| && i != |PopularZones(all, formattable)| ==>
      var option := TimezoneList(all, formattable, offset)[i];
      && option.group == Some(Region(option.value))
      && option.text == FriendlyName(option.value) + " (" + offset(option.value) + ")"
  {
    TimezoneListShape(all, formattable, offset);
  }

  /**
   * The first part holds exactly the popular zones that are enumerated and
   * formattable, in the fixed order of the popular list.
   */
  lemma PopularZonesInFixedOrder(all: seq<string>, formattable: set<string>)
    ensures forall z :: z in PopularZones(all, formattable) <==> z in Popular && z in all && z in formattable
    ensures forall i, j :: 0 <= i < j < |PopularZones(all, formattable)| ==>
      IndexOf(Popular, PopularZones(all, formattable)[i]) < IndexOf(Popular, PopularZones(all, formattable)[j])
  {
    var present := Present(all, formattable);
    FilterMembers(Popular, present);
    PopularRanked();
    FilterKeepsPairwise(Popular, present, PopularRank);
    var p := PopularZones(all, formattable);
    forall i, j | 0 <= i < j < |p| ensures IndexOf(Popular, p[i]) < IndexOf(Popular, p[j]) {
      assert PopularRank(p[i], p[j]);
    }
  }

  /** a comes before b in the popular list. */
  const PopularRank: (string, string) -> bool := (a, b) => IndexOf(Popular, a) < IndexOf(Popular, b)

  lemma PopularRanked()
    ensures forall i, j :: 0 <= i < j < |Popular| ==> PopularRank(Popular[i], Popular[j])
  {
    PopularDistinct();
    forall i, j | 0 <= i < j < |Popular| ensures PopularRank(Popular[i], Popular[j]) {
      IndexOfDistinct(Popular, i);
      IndexOfDistinct(Popular, j);
    }
  }

  lemma IndexOfDistinct(s: seq<string>, i: nat)
    requires Distinct(s) && i < |s|
    ensures IndexOf(s, s[i]) == i
  {
    var k := IndexOf(s, s[i]);
    assert s[k] == s[i];
  }

  /**
   * The last part holds exactly the enumerated, formattable zones outside the
   * popular list, in ascending string order.
   */
  lemma OtherZonesSorted(all: seq<string>, formattable: set<string>)
    ensures forall z :: z in OtherZones(all, formattable) <==> z in all && z !in Popular && z in formattable
    ensures forall i, j :: 0 <= i < j < |OtherZones(all, formattable)| ==>
      JsSort.LexLe(OtherZones(all, formattable)[i], OtherZones(all, formattable)[j])
  {
    var rest := Filter(all, NotPopular);
    FilterMembers(all, NotPopular);
    SortedFilterMembers(rest, Accepted(formattable));
    SortedFilterOrdered(rest, Accepted(formattable));
  }

  /** Sorting, then filtering, keeps exactly the members that pass the filter. */
  lemma SortedFilterMembers(zs: seq<string>, keep: string -> bool)
    ensures forall z :: z in Filter(JsSort.Sort(zs), keep) <==> z in zs && keep(z)
  {
    var sorted := JsSort.Sort(zs);
    FilterMembers(sorted, keep);
    forall z | z in sorted ensures z in zs {
      assert z in multiset(sorted);
    }
    forall z | z in zs ensures z in sorted {
      assert z in multiset(zs);
    }
  }

  /** Sorting, then filtering, leaves the entries in ascending string order. */
  lemma SortedFilterOrdered(zs: seq<string>, keep: string -> bool)
    ensures forall i, j :: 0 <= i < j < |Filter(JsSort.Sort(zs), keep)| ==>
      JsSort.LexLe(Filter(JsSort.Sort(zs), keep)[i], Filter(JsSort.Sort(zs), keep)[j])
  {
    FilterKeepsPairwise(JsSort.Sort(zs), keep, JsSort.LexLe);
  }

  /** Filtering keeps a sequence duplicate-free. */
  lemma FilterKeepsDistinct(zs: seq<string>, keep: string -> bool)
    requires Distinct(zs)
    ensures Distinct(Filter(zs, keep))
  {
    forall i, j | 0 <= i < j < |zs| ensures Differ(zs[i], zs[j]) { }
    FilterKeepsPairwise(zs, keep, Differ);
    var r := Filter(zs, keep);
    forall i, j | 0 <= i < j < |r| ensures r[i] != r[j] {
      assert Differ(r[i], r[j]);
    }
  }

  lemma PopularZonesDistinct(all: seq<string>, formattable: set<string>)
    ensures Distinct(PopularZones(all, formattable))
  {
    PopularDistinct();
    FilterKeepsDistinct(Popular, Present(all, formattable));
  }

  lemma OtherZonesDistinct(all: seq<string>, formattable: set<string>)
    requires Distinct(all)
    ensures Distinct(OtherZones(all, formattable))
  {
    var rest := Filter(all, NotPopular);
    FilterKeepsDistinct(all, NotPopular);
    var sorted := JsSort.Sort(rest);
    PermutationKeepsDistinct(rest, sorted);
    FilterKeepsDistinct(sorted, Accepted(formattable));
  }

  /**
   * With a duplicate-free enumeration no zone id appears twice among the
   * entries other than the separator.
   */
  lemma NoDuplicateValues(all: seq<string>, formattable: set<string>, offset: string -> string)
    requires Distinct(all)
    ensures forall i, j ::
      0 <= i < j < |TimezoneList(all, formattable, offset)|
      && i != |PopularZones(all, formattable)| && j != |PopularZones(all, formattable)| ==>
      TimezoneList(all, formattable, offset)[i].value != TimezoneList(all, formattable, offset)[j].value
  {
    var p, o, l := PopularZones(all, formattable), OtherZones(all, formattable), TimezoneList(all, formattable, offset);
    OptionEntries(all, formattable, offset);
    TimezoneListShape(all, formattable, offset);
    PopularZonesDistinct(all, formattable);
    OtherZonesDistinct(all, formattable);
    PopularZonesInFixedOrder(all, formattable);
    OtherZonesSorted(all, formattable);
    forall i, j | 0 <= i < j < |l| && i != |p| && j != |p| ensures l[i].value != l[j].value {
      if j < |p| {
        assert l[i].value == p[i] && l[j].value == p[j];
      } else if i > |p| {
        assert l[i].value == o[i - |p| - 1] && l[j].value == o[j - |p| - 1];
      } else {
        assert l[i].value == p[i] && p[i] in p;
        assert l[j].value == o[j - |p| - 1] && o[j - |p| - 1] in o;
      }
    }
  }
}
