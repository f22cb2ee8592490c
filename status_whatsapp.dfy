/**
 * The WhatsApp channel status page: the status and quality codes a channel
 * reports, the colour tone each stands for, the channels grouped by account
 * with the worst status and quality per account, the tone counters per
 * account and over all channels, and the phone number shown per channel.
 */
module StatusWhatsapp {
  import opened Base
  import opened Js
  import opened Grouping

  datatype Tone = Green | Yellow | Red | Gray

  const Unknown: string := "UNKNOWN"

  /** The keys of the status table. */
  const StatusCodes: seq<string> := ["CONNECTED", "DISCONNECTED", "CONNECTING", "FAILED", "FLAGGED", "UNKNOWN"]
  /** The keys of the quality table. */
  const QualityCodes: seq<string> := ["GREEN", "HIGH", "YELLOW", "MEDIUM", "ORANGE", "RED", "LOW", "GRAY", "UNKNOWN"]
  /** Worst first: the status an account shows is the first of these any of its channels has. */
  const StatusPriority: seq<string> := ["FAILED", "DISCONNECTED", "FLAGGED", "CONNECTING", "CONNECTED", "UNKNOWN"]
  /** Worst first, for quality ratings. */
  const QualityPriority: seq<string> := ["RED", "LOW", "ORANGE", "YELLOW", "MEDIUM", "GREEN", "HIGH", "UNKNOWN"]

  /** The tone of a status code. */
  function StatusTone(code: string): Tone {
    if code == "CONNECTED" then Green
    else if code == "DISCONNECTED" || code == "FAILED" then Red
    else if code == "CONNECTING" || code == "FLAGGED" then Yellow
    else Gray
  }

  /** The tone of a quality code. */
  function QualityTone(code: string): Tone {
    if code == "GREEN" || code == "HIGH" then Green
    else if code == "YELLOW" || code == "MEDIUM" || code == "ORANGE" then Yellow
    else if code == "RED" || code == "LOW" then Red
    else Gray
  }

  /** `normalizeString`: the trimmed text of a value, empty for `null` and `undefined`. */
  function NormalizeString(v: JsValue): (r: string)
    ensures IsNullish(v) ==> r == ""
  {
    JsTrim(TextOf(v))
  }

  /** The upper-cased token when it is one of `codes`, otherwise "UNKNOWN". */
  function ToCode(v: JsValue, codes: seq<string>): (r: string)
    ensures Upper(NormalizeString(v)) in codes ==> r == Upper(NormalizeString(v))
    ensures Upper(NormalizeString(v)) !in codes ==> r == Unknown
  {
    var token := Upper(NormalizeString(v));
    if token in codes then token else Unknown
  }

  /** `toStatusCode`: always a key of the status table. */
  function ToStatusCode(status: JsValue): (r: string)
    ensures r in StatusCodes
    ensures Upper(NormalizeString(status)) in StatusCodes ==> r == Upper(NormalizeString(status))
    ensures Upper(NormalizeString(status)) !in StatusCodes ==> r == Unknown
  {
    ToCode(status, StatusCodes)
  }

  /** `toQualityCode`: always a key of the quality table. */
  function ToQualityCode(rating: JsValue): (r: string)
    ensures r in QualityCodes
    ensures Upper(NormalizeString(rating)) in QualityCodes ==> r == Upper(NormalizeString(rating))
    ensures Upper(NormalizeString(rating)) !in QualityCodes ==> r == Unknown
  {
    ToCode(rating, QualityCodes)
  }

  /** Every code is in its priority list, so every code has a rank. */
  lemma CodesRanked()
    ensures forall c :: c in StatusCodes ==> c in StatusPriority
    ensures forall c :: c in QualityCodes && c != "GRAY" ==> c in QualityPriority
  {
  }

  // ---------------------------------------------------------------------
  // The worst code of a group
  // ---------------------------------------------------------------------

  /** The place of `c` in `priority`, or `|priority|` when it is not there. */
  function Rank(priority: seq<string>, c: string): (r: nat)
    ensures r <= |priority|
    ensures r < |priority| ==> priority[r] == c && forall j :: 0 <= j < r ==> priority[j] != c
    ensures r == |priority| ==> c !in priority
  {
    if priority == [] then 0
    else if priority[0] == c then 0
    else 1 + Rank(priority[1..], c)
  }

  function InCodes(codes: seq<string>): string -> bool {
    (c: string) => c in codes
  }

  /** `PRIORITY.find((candidate) => codes.includes(candidate)) || 'UNKNOWN'`. */
  function Aggregate(priority: seq<string>, codes: seq<string>): (r: string)
    ensures r == Unknown || r in codes
  {
    match FirstWhere(priority, InCodes(codes))
    case Some(i) => priority[i]
    case None => Unknown
  }

  /**
   * When every code has a rank, the aggregate of a non-empty list is one of
   * its codes and ranks no later than any of them; an empty list gives "UNKNOWN".
   */
  lemma AggregateEarliest(priority: seq<string>, codes: seq<string>)
    requires forall i :: 0 <= i < |codes| ==> codes[i] in priority
    ensures codes == [] ==> Aggregate(priority, codes) == Unknown
    ensures codes != [] ==> Aggregate(priority, codes) in codes
    ensures forall i :: 0 <= i < |codes| ==> Rank(priority, Aggregate(priority, codes)) <= Rank(priority, codes[i])
  {
    var f := FirstWhere(priority, InCodes(codes));
    if codes != [] {
      assert priority[Rank(priority, codes[0])] in codes;
    }
    if f.Some? {
      forall i | 0 <= i < |codes|
        ensures Rank(priority, priority[f.value]) <= Rank(priority, codes[i])
      {
        var r := Rank(priority, codes[i]);
        assert InCodes(codes)(priority[r]);
      }
    }
  }

  /**
   * Codes missing from the priority list are passed over: when some code is
   * ranked the aggregate is one of the codes and ranks no later than any
   * ranked code; when none is, it is "UNKNOWN".
   */
  lemma AggregateRanked(priority: seq<string>, codes: seq<string>)
    ensures forall i :: 0 <= i < |codes| && codes[i] in priority ==>
      Aggregate(priority, codes) in codes && Rank(priority, Aggregate(priority, codes)) <= Rank(priority, codes[i])
    ensures (forall i :: 0 <= i < |codes| ==> codes[i] !in priority) ==> Aggregate(priority, codes) == Unknown
  {
    var f := FirstWhere(priority, InCodes(codes));
    forall i | 0 <= i < |codes| && codes[i] in priority
      ensures f.Some? && Rank(priority, priority[f.value]) <= Rank(priority, codes[i])
    {
      var r := Rank(priority, codes[i]);
      assert InCodes(codes)(priority[r]);
    }
    if f.Some? {
      assert priority[f.value] in codes;
    }
  }

  function StatusCodesOf(entries: seq<JsValue>): (cs: seq<string>)
    ensures |cs| == |entries| && forall i :: 0 <= i < |entries| ==> cs[i] == ToStatusCode(Get(entries[i], "status"))
  {
    seq(|entries|, i requires 0 <= i < |entries| => ToStatusCode(Get(entries[i], "status")))
  }

  function QualityCodesOf(entries: seq<JsValue>): (cs: seq<string>)
    ensures |cs| == |entries| && forall i :: 0 <= i < |entries| ==> cs[i] == ToQualityCode(Get(entries[i], "quality_rating"))
  {
    seq(|entries|, i requires 0 <= i < |entries| => ToQualityCode(Get(entries[i], "quality_rating")))
  }

  /** `aggregateStatus`: the worst status among the entries. */
  function AggregateStatus(entries: seq<JsValue>): (r: string)
    ensures entries == [] ==> r == Unknown
    ensures entries != [] ==> r in StatusCodesOf(entries)
    ensures forall i :: 0 <= i < |entries| ==>
      Rank(StatusPriority, r) <= Rank(StatusPriority, ToStatusCode(Get(entries[i], "status")))
  {
    var codes := StatusCodesOf(entries);
    CodesRanked();
    AggregateEarliest(StatusPriority, codes);
    Aggregate(StatusPriority, codes)
  }

  /**
   * `aggregateQuality`: the worst quality among the entries.  "GRAY" has no
   * rank, so it is passed over, and entries that are all "GRAY" give "UNKNOWN".
   */
  function AggregateQuality(entries: seq<JsValue>): (r: string)
    ensures entries == [] ==> r == Unknown
    ensures r == Unknown || r in QualityCodesOf(entries)
    ensures forall i :: 0 <= i < |entries| && ToQualityCode(Get(entries[i], "quality_rating")) != "GRAY" ==>
      r in QualityCodesOf(entries)
      && Rank(QualityPriority, r) <= Rank(QualityPriority, ToQualityCode(Get(entries[i], "quality_rating")))
    ensures (forall i :: 0 <= i < |entries| ==> ToQualityCode(Get(entries[i], "quality_rating")) == "GRAY") ==> r == Unknown
  {
    var codes := QualityCodesOf(entries);
    CodesRanked();
    AggregateRanked(QualityPriority, codes);
    Aggregate(QualityPriority, codes)
  }

  // ---------------------------------------------------------------------
  // Tone counters
  // ---------------------------------------------------------------------

  datatype Counters = Counters(green: nat, yellow: nat, red: nat, gray: nat)

  function Total(c: Counters): nat { c.green + c.yellow + c.red + c.gray }

  function ToneIs<T>(tone: T -> Tone, t: Tone): T -> bool {
    (x: T) => tone(x) == t
  }

  /** How many of `xs` have each tone. */
  function CountTones<T>(xs: seq<T>, tone: T -> Tone): (c: Counters)
    ensures c.green == Count(xs, ToneIs(tone, Green)) && c.yellow == Count(xs, ToneIs(tone, Yellow))
    ensures c.red == Count(xs, ToneIs(tone, Red)) && c.gray == Count(xs, ToneIs(tone, Gray))
  {
    Counters(Count(xs, ToneIs(tone, Green)), Count(xs, ToneIs(tone, Yellow)),
      Count(xs, ToneIs(tone, Red)), Count(xs, ToneIs(tone, Gray)))
  }

  /** Every element has exactly one tone, so the four counters add up to the length. */
  lemma {:induction false} CountTonesTotal<T>(xs: seq<T>, tone: T -> Tone)
    ensures Total(CountTones(xs, tone)) == |xs|
  {
    if xs != [] {
      CountTonesTotal(xs[1..], tone);
    }
  }

  function ChannelStatusTone(entry: JsValue): Tone { StatusTone(ToStatusCode(Get(entry, "status"))) }
  function ChannelQualityTone(entry: JsValue): Tone { QualityTone(ToQualityCode(Get(entry, "quality_rating"))) }

  // ---------------------------------------------------------------------
  // Groups by account
  // ---------------------------------------------------------------------

  /** The account a channel belongs to: its lower-cased account name, or "sem-nome". */
  function AccountKey(channel: JsValue): (r: string)
    ensures r != []
  {
    var k := Lower(NormalizeString(Get(channel, "account_name")));
    if k == [] then "sem-nome" else k
  }

  /** The account name shown: the trimmed name, or a dash. */
  function DisplayName(channel: JsValue): (r: string)
    ensures r != []
  {
    var n := NormalizeString(Get(channel, "account_name"));
    if n == [] then "—" else n
  }

  /** An account's channels, named after the first channel seen for it. */
  datatype ChannelGroup = ChannelGroup(key: string, name: string, entries: seq<JsValue>)

  function NewGroup(key: string): ChannelGroup { ChannelGroup(key, "—", []) }

  function AddChannel(g: ChannelGroup, channel: JsValue): (h: ChannelGroup)
    ensures h.key == g.key && h.entries == g.entries + [channel]
    ensures h.name == DisplayName(h.entries[0])
  {
    if g.entries == [] then ChannelGroup(g.key, DisplayName(channel), [channel])
    else ChannelGroup(g.key, DisplayName(g.entries[0]), g.entries + [channel])
  }

  /** What the table shows per account. */
  datatype GroupView = GroupView(
    key: string, name: string, count: nat, statusCode: string, qualityCode: string,
    statusCounters: Counters, qualityCounters: Counters)

  function ViewOf(g: ChannelGroup): (v: GroupView)
    ensures v.key == g.key && v.name == g.name && v.count == |g.entries|
    ensures Total(v.statusCounters) == v.count && Total(v.qualityCounters) == v.count
  {
    CountTonesTotal(g.entries, ChannelStatusTone);
    CountTonesTotal(g.entries, ChannelQualityTone);
    GroupView(g.key, g.name, |g.entries|, AggregateStatus(g.entries), AggregateQuality(g.entries),
      CountTones(g.entries, ChannelStatusTone), CountTones(g.entries, ChannelQualityTone))
  }

  function ChannelGroups(channels: seq<JsValue>): seq<ChannelGroup> {
    Groups(channels, AccountKey, NewGroup, AddChannel)
  }

  function Views(gs: seq<ChannelGroup>): (vs: seq<GroupView>)
    ensures |vs| == |gs| && forall t :: 0 <= t < |gs| ==> vs[t] == ViewOf(gs[t])
  {
    seq(|gs|, t requires 0 <= t < |gs| => ViewOf(gs[t]))
  }

  /** `groupedChannels`: one view per account, in first-appearance order. */
  method GroupedChannels(channels: seq<JsValue>) returns (views: seq<GroupView>)
    ensures views == Views(ChannelGroups(channels))
  {
    var gs := GroupBy(channels, AccountKey, NewGroup, AddChannel);
    views := Views(gs);
  }

  /**
   * The group at place `t` holds exactly its account's channels, in order,
   * is named after the first of them, and is not empty.
   */
  lemma ChannelGroupShape(channels: seq<JsValue>, t: nat)
    requires t < |ChannelGroups(channels)|
    ensures var g := ChannelGroups(channels)[t];
      g.key == GroupKeys(channels, AccountKey, |channels|)[t] &&
      g.entries == Members(channels, AccountKey, g.key) &&
      g.entries != [] && g.name == DisplayName(g.entries[0])
  {
    var k := GroupKeys(channels, AccountKey, |channels|)[t];
    assert ChannelGroups(channels)[t] == Fold(channels, AccountKey, NewGroup, AddChannel, |channels|, k);
    AccountGroup(channels, k);
    ChannelGroupsPartition(channels);
  }

  /** The group of account `k` has that key, holds the account's channels and is named after the first. */
  lemma AccountGroup(channels: seq<JsValue>, k: string)
    ensures var g := Fold(channels, AccountKey, NewGroup, AddChannel, |channels|, k);
      g.key == k && g.entries == Members(channels, AccountKey, k) &&
      (g.entries != [] ==> g.name == DisplayName(g.entries[0]))
  {
    var inv := (g: ChannelGroup) => g.key == k && (g.entries != [] ==> g.name == DisplayName(g.entries[0]));
    FoldKeeps(channels, AccountKey, NewGroup, AddChannel, inv, |channels|, k);
    FoldRows(channels, AccountKey, NewGroup, AddChannel, (g: ChannelGroup) => g.entries, |channels|, k);
    assert channels[..|channels|] == channels;
  }

  /** Every channel is counted in exactly one account. */
  lemma ChannelGroupsPartition(channels: seq<JsValue>)
    ensures SumSizes(ChannelGroups(channels), GroupSize) == |channels|
    ensures forall t :: 0 <= t < |ChannelGroups(channels)| ==> ChannelGroups(channels)[t].entries != []
    ensures |ChannelGroups(channels)| <= |channels|
  {
    ChannelSizes();
    GroupsPartition(channels, AccountKey, NewGroup, AddChannel, GroupSize);
  }

  function GroupSize(g: ChannelGroup): nat { |g.entries| }

  /** A new group is empty and each added channel makes it one longer. */
  lemma ChannelSizes()
    ensures forall k :: GroupSize(NewGroup(k)) == 0
    ensures forall a, x :: GroupSize(AddChannel(a, x)) == GroupSize(a) + 1
  {
    forall a: ChannelGroup, x: JsValue ensures GroupSize(AddChannel(a, x)) == GroupSize(a) + 1 {
      assert AddChannel(a, x).entries == a.entries + [x];
    }
  }

  // ---------------------------------------------------------------------
  // Summary over all channels
  // ---------------------------------------------------------------------

  datatype Summary = Summary(totalNumbers: nat, totalGroups: nat, status: Counters, quality: Counters)

  /** `summary`: the channel and account counts and the tone counters over all channels. */
  function SummaryOf(channels: seq<JsValue>): (s: Summary)
    ensures s.totalNumbers == |channels| && s.totalGroups == |ChannelGroups(channels)|
    ensures Total(s.status) == |channels| && Total(s.quality) == |channels|
    ensures s.totalGroups <= s.totalNumbers
  {
    CountTonesTotal(channels, ChannelStatusTone);
    CountTonesTotal(channels, ChannelQualityTone);
    ChannelGroupsPartition(channels);
    Summary(|channels|, |ChannelGroups(channels)|,
      CountTones(channels, ChannelStatusTone), CountTones(channels, ChannelQualityTone))
  }

  // ---------------------------------------------------------------------
  // Phone numbers
  // ---------------------------------------------------------------------

  /** `+country (area) prefix-suffix`, the area, prefix and suffix cut from the end of the digits. */
  function PhoneText(country: string, d: string): string {
    "+" + country + " (" + JsSlice(d, -11, -9) + ") " + JsSlice(d, -9, -4) + "-" + JsSlice(d, -4, |d|)
  }

  /** The digits of a phone text: the country, then the last eleven digits (all of them when fewer). */
  lemma PhoneTextDigits(country: string, d: string)
    requires AllDigits(country) && AllDigits(d) && |d| >= 10
    ensures Digits(PhoneText(country, d)) == country + (if |d| >= 11 then d[|d| - 11..] else d)
  {
    var a, b, e := JsSlice(d, -11, -9), JsSlice(d, -9, -4), JsSlice(d, -4, |d|);
    PhoneSlices(d);
    DigitsOfParts(country, a, b, e);
  }

  /** The three slices of a phone text are, together, the last eleven digits. */
  lemma PhoneSlices(d: string)
    requires AllDigits(d) && |d| >= 10
    ensures var a, b, e := JsSlice(d, -11, -9), JsSlice(d, -9, -4), JsSlice(d, -4, |d|);
      AllDigits(a) && AllDigits(b) && AllDigits(e) &&
      a + b + e == (if |d| >= 11 then d[|d| - 11..] else d)
  {
    var n := |d|;
    var lo := if n >= 11 then n - 11 else 0;
    assert SliceIndex(-11, n) == lo;
    assert SliceIndex(-9, n) == n - 9;
    assert SliceIndex(-4, n) == n - 4;
    assert SliceIndex(n, n) == n;
    assert JsSlice(d, -11, -9) == d[lo..n - 9];
    assert JsSlice(d, -9, -4) == d[n - 9..n - 4];
    assert JsSlice(d, -4, n) == d[n - 4..];
    assert d[lo..n - 9] + d[n - 9..n - 4] + d[n - 4..] == d[lo..];
  }

  /** Separators drop out of the digits of a phone text. */
  lemma DigitsOfParts(country: string, a: string, b: string, e: string)
    requires AllDigits(country) && AllDigits(a) && AllDigits(b) && AllDigits(e)
    ensures Digits("+" + country + " (" + a + ") " + b + "-" + e) == country + a + b + e
  {
    NoDigits("+");
    NoDigits(" (");
    NoDigits(") ");
    NoDigits("-");
    DigitsInterleaved("+", country, " (", a, ") ", b, "-", e);
  }

  /**
   * `formatPhone` as written: a dash for a blank value, the value itself
   * below ten digits, otherwise the phone text with the digits before the
   * last eleven as the country code, or "55" when there are none.  With
   * exactly ten digits `slice(0, length - 11)` is `slice(0, -1)`, which is
   * not empty.
   */
  function FormatPhoneAsWritten(value: JsValue): (r: string)
    ensures NormalizeString(value) == [] ==> r == "—"
  {
    var raw := NormalizeString(value);
    if raw == [] then "—"
    else
      var d := Digits(raw);
      if |d| < 10 then raw
      else
        var head := JsSlice(d, 0, |d| - 11);
        PhoneText(if head == [] then "55" else head, d)
  }

  /** A ten-digit number is shown with nine of its digits as the country code and its digits repeated. */
  lemma FormatPhoneAsWrittenTenDigits(d: string)
    requires AllDigits(d) && |d| == 10
    ensures |Digits(FormatPhoneAsWritten(JStr(d)))| == 19
    ensures Digits(FormatPhoneAsWritten(JStr(d))) != "55" + d
  {
    TrimDigits(d);
    DigitsOfDigits(d);
    var head := JsSlice(d, 0, |d| - 11);
    assert head == d[..9];
    PhoneTextDigits(head, d);
  }

  lemma TrimDigits(d: string)
    requires AllDigits(d) && d != []
    ensures JsTrim(d) == d
  {
    assert !IsJsSpace(d[0]) && !IsJsSpace(d[|d| - 1]);
    TrimOfTrimmed(d, IsJsSpace);
  }

  /** `formatPhone` with the country code taken only from digits beyond the last eleven. */
  function FormatPhone(value: JsValue): (r: string)
    ensures NormalizeString(value) == [] ==> r == "—"
    ensures NormalizeString(value) != [] && |Digits(NormalizeString(value))| < 10 ==> r == NormalizeString(value)
  {
    var raw := NormalizeString(value);
    if raw == [] then "—"
    else
      var d := Digits(raw);
      if |d| < 10 then raw
      else PhoneText(if |d| > 11 then d[..|d| - 11] else "55", d)
  }

  /** A shown phone number carries every digit of the value, behind "55" when the value has no country code. */
  lemma FormatPhoneDigits(value: JsValue)
    requires |Digits(NormalizeString(value))| >= 10
    ensures var d := Digits(NormalizeString(value));
      Digits(FormatPhone(value)) == (if |d| > 11 then d else "55" + d)
  {
    var raw := NormalizeString(value);
    var d := Digits(raw);
    assert raw != [];
    assert FormatPhone(value) == PhoneText(if |d| > 11 then d[..|d| - 11] else "55", d);
    PhoneOfDigits(d);
  }

  lemma PhoneOfDigits(d: string)
    requires AllDigits(d) && |d| >= 10
    ensures Digits(PhoneText(if |d| > 11 then d[..|d| - 11] else "55", d)) == (if |d| > 11 then d else "55" + d)
  {
    if |d| > 11 {
      LongPhoneDigits(d);
    } else {
      ShortPhoneDigits(d);
    }
  }

  /** More than eleven digits: the leading ones are the country code. */
  lemma LongPhoneDigits(d: string)
    requires AllDigits(d) && |d| > 11
    ensures Digits(PhoneText(d[..|d| - 11], d)) == d
  {
    var head := d[..|d| - 11];
    assert AllDigits(head);
    PhoneTextDigits(head, d);
    assert head + d[|d| - 11..] == d;
  }

  /** Ten or eleven digits: the country code is "55". */
  lemma ShortPhoneDigits(d: string)
    requires AllDigits(d) && 10 <= |d| <= 11
    ensures Digits(PhoneText("55", d)) == "55" + d
  {
    assert AllDigits("55");
    PhoneTextDigits("55", d);
    if |d| == 11 {
      assert d[|d| - 11..] == d;
    }
  }
}
