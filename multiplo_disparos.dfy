/**
 * The bulk-send page: splitting phone ids into request-sized chunks, the
 * per-channel batch-size inputs, the quality ranking of channels, the last
 * four digits shown for a phone, and the pair of interval sliders.
 */
module MultiploDisparos {
  import opened Base
  import opened Js

  // ---------------------------------------------------------------------
  // chunkIds
  // ---------------------------------------------------------------------

  /** The chunks, joined back together. */
  function Flatten<T>(chunks: seq<seq<T>>): seq<T> {
    if chunks == [] then [] else Flatten(chunks[..|chunks| - 1]) + chunks[|chunks| - 1]
  }

  function Min(a: int, b: int): int { if a < b then a else b }

  /**
   * The chunking loop: the chunks, joined, are the input in order, none is
   * empty or longer than `k`, and all but the last are exactly `k` long.
   */
  method Chunk<T>(arr: seq<T>, k: nat) returns (chunks: seq<seq<T>>)
    requires k >= 1
    ensures Flatten(chunks) == arr
    ensures forall j :: 0 <= j < |chunks| ==> 0 < |chunks[j]| <= k
    ensures forall j :: 0 <= j < |chunks| - 1 ==> |chunks[j]| == k
  {
    chunks := [];
    var i := 0;
    while i < |arr|
      invariant 0 <= i
      invariant Flatten(chunks) == arr[..Min(i, |arr|)]
      invariant forall j :: 0 <= j < |chunks| ==> 0 < |chunks[j]| <= k
      invariant forall j :: 0 <= j < |chunks| - 1 ==> |chunks[j]| == k
      invariant chunks != [] ==> |chunks[|chunks| - 1]| == k || i >= |arr|
      decreases |arr| - i
    {
      var piece := Slice(arr, i, i + k);
      assert piece == arr[i..Min(i + k, |arr|)];
      FlattenNext(chunks, arr, i, Min(i + k, |arr|));
      chunks := chunks + [piece];
      i := i + k;
    }
    assert arr[..Min(i, |arr|)] == arr;
  }

  /** Appending the next slice extends the joined prefix. */
  lemma FlattenNext<T>(chunks: seq<seq<T>>, arr: seq<T>, i: nat, e: nat)
    requires i <= e <= |arr| && Flatten(chunks) == arr[..i]
    ensures Flatten(chunks + [arr[i..e]]) == arr[..e]
  {
    assert (chunks + [arr[i..e]])[..|chunks|] == chunks;
    assert arr[..e] == arr[..i] + arr[i..e];
  }

  /** `Math.max(1, Number(size) || 1)`: NaN, zero and negative sizes become 1. */
  function ChunkSize(size: JsValue): (k: nat)
    ensures k >= 1
    ensures size.JNum? && size.n >= 1 ==> k == size.n
  {
    var n := NumberOrZero(size);
    if n >= 1 then n else 1
  }

  /** `chunkIds`: a non-array gives no chunks; an array is chunked by the chunk size. */
  method ChunkIds(ids: JsValue, size: JsValue) returns (chunks: seq<seq<JsValue>>)
    ensures Flatten(chunks) == ArrayOrEmpty(ids)
    ensures forall j :: 0 <= j < |chunks| ==> 0 < |chunks[j]| <= ChunkSize(size)
    ensures forall j :: 0 <= j < |chunks| - 1 ==> |chunks[j]| == ChunkSize(size)
  {
    chunks := Chunk(ArrayOrEmpty(ids), ChunkSize(size));
  }

  // ---------------------------------------------------------------------
  // Batch sizes per channel
  // ---------------------------------------------------------------------

  const DefaultBatchSize: nat := 100
  const MaxBatchSize: nat := 1000

  /** What the batch-size box stores: `''` for no digits, else the digits' value clamped to 1..1000. */
  function BatchInput(raw: string): (r: string)
    ensures r == [] <==> Digits(raw) == []
    ensures r != [] ==> AllDigits(r) && 1 <= ParseNat(r) <= MaxBatchSize
    ensures r != [] ==> ParseNat(r) == Clamp(ParseNat(Digits(raw)))
  {
    var digits := Digits(raw);
    if digits == [] then []
    else
      var n := Clamp(ParseNat(digits));
      ParseNatToString(n);
      NatToString(n)
  }

  /** `Math.min(Math.max(n, 1), 1000)`. */
  function Clamp(n: nat): (r: nat)
    ensures 1 <= r <= MaxBatchSize
    ensures 1 <= n <= MaxBatchSize ==> r == n
  {
    if n < 1 then 1 else if n > MaxBatchSize then MaxBatchSize else n
  }

  /** A stored batch size: blank, or digits worth 1..1000. */
  predicate StoredOk(v: string) {
    v == [] || (AllDigits(v) && 1 <= ParseNat(v) <= MaxBatchSize)
  }

  /** The page's `channelBatchSizes`, keyed by channel id. */
  class BatchSizes {
    var sizes: map<string, string>

    /** Every stored value is blank or a size in 1..1000. */
    predicate Valid()
      reads this
    {
      forall c :: c in sizes ==> StoredOk(sizes[c])
    }

    constructor()
      ensures sizes == map[] && Valid()
    {
      sizes := map[];
    }

    /** `handleChannelBatchSizeChange`. */
    method Change(channelId: string, raw: string)
      requires Valid()
      modifies this
      ensures sizes == old(sizes)[channelId := BatchInput(raw)]
      ensures Valid()
    {
      sizes := sizes[channelId := BatchInput(raw)];
    }

    /** `handleChannelBatchSizeBlur`: a blank or missing size becomes the default. */
    method Blur(channelId: string)
      requires Valid()
      modifies this
      ensures channelId !in old(sizes) || old(sizes)[channelId] == [] ==>
        sizes == old(sizes)[channelId := NatToString(DefaultBatchSize)]
      ensures channelId in old(sizes) && old(sizes)[channelId] != [] ==> sizes == old(sizes)
      ensures Valid()
    {
      if channelId !in sizes || sizes[channelId] == [] {
        ParseNatToString(DefaultBatchSize);
        sizes := sizes[channelId := NatToString(DefaultBatchSize)];
      }
    }

    /**
     * `getChannelBatchSize`: always positive; a missing, blank or
     * unparsable size gives the default, a stored one its own value.
     */
    function BatchSize(channelId: string): (r: nat)
      reads this
      ensures r > 0
      ensures channelId !in sizes || Digits(sizes[channelId]) == [] ==> r == DefaultBatchSize
      ensures Valid() && channelId in sizes && sizes[channelId] != [] ==> r == ParseNat(sizes[channelId])
    {
      if channelId !in sizes then DefaultBatchSize
      else
        var stored := sizes[channelId];
        ParseIntOfDigits(stored);
        match ParseIntText(stored)
        case Some(n) => if n > 0 then n else DefaultBatchSize
        case None => DefaultBatchSize
    }
  }

  // ---------------------------------------------------------------------
  // Quality rank
  // ---------------------------------------------------------------------

  /** The rating as the ranking reads it: trimmed and lower-cased. */
  function RatingKey(rating: JsValue): string {
    Lower(JsTrim(ToStr(Or(rating, JStr("")))))
  }

  /** `getQualityRank`: good ratings first, then medium, then bad, then anything else. */
  function QualityRank(rating: JsValue): (r: nat)
    ensures r <= 3
    ensures r == 0 <==> RatingKey(rating) in {"green", "high"}
    ensures r == 1 <==> RatingKey(rating) in {"yellow", "orange", "medium"}
    ensures r == 2 <==> RatingKey(rating) in {"red", "low"}
  {
    var key := RatingKey(rating);
    if key == "green" || key == "high" then 0
    else if key == "yellow" || key == "orange" || key == "medium" then 1
    else if key == "red" || key == "low" then 2
    else 3
  }

  lemma {:induction false} LeadingLower(s: string)
    ensures LeadingCount(Lower(s), IsJsSpace) == LeadingCount(s, IsJsSpace)
  {
    if s != [] {
      assert Lower(s)[1..] == Lower(s[1..]);
      assert Lower(s)[0] == LowerChar(s[0]);
      LowerKeepsSpace(s[0]);
      LeadingLower(s[1..]);
    }
  }

  lemma {:induction false} TrailingLower(s: string)
    ensures TrailingCount(Lower(s), IsJsSpace) == TrailingCount(s, IsJsSpace)
  {
    if s != [] {
      assert Lower(s)[..|s| - 1] == Lower(s[..|s| - 1]);
      assert Lower(s)[|s| - 1] == LowerChar(s[|s| - 1]);
      LowerKeepsSpace(s[|s| - 1]);
      TrailingLower(s[..|s| - 1]);
    }
  }

  /** Lower-casing a character never turns it into or out of whitespace. */
  lemma LowerKeepsSpace(c: char)
    ensures IsJsSpace(LowerChar(c)) == IsJsSpace(c)
  {
  }

  /** Lower-casing neither adds nor removes whitespace, so it commutes with trimming. */
  lemma LowerJsTrim(s: string)
    ensures JsTrim(Lower(s)) == Lower(JsTrim(s))
  {
    var a := LeadingCount(s, IsJsSpace);
    var u := s[a..];
    var b := TrailingCount(u, IsJsSpace);
    calc {
      JsTrim(Lower(s));
      TrimEnd(TrimStart(Lower(s), IsJsSpace), IsJsSpace);
      { LowerTrimStart(s); }
      TrimEnd(Lower(u), IsJsSpace);
      { LowerTrimEnd(u); }
      Lower(u[..|u| - b]);
      Lower(JsTrim(s));
    }
  }

  lemma LowerTrimStart(s: string)
    ensures TrimStart(Lower(s), IsJsSpace) == Lower(TrimStart(s, IsJsSpace))
  {
    LeadingLower(s);
    var a := LeadingCount(s, IsJsSpace);
    assert Lower(s)[a..] == Lower(s[a..]);
  }

  lemma LowerTrimEnd(u: string)
    ensures TrimEnd(Lower(u), IsJsSpace) == Lower(TrimEnd(u, IsJsSpace))
  {
    TrailingLower(u);
    var b := TrailingCount(u, IsJsSpace);
    assert Lower(u)[..|u| - b] == Lower(u[..|u| - b]);
  }

  /** The rank ignores case: `GREEN`, `Green` and `green` rank alike. */
  lemma QualityRankIgnoresCase(s: string)
    ensures QualityRank(JStr(Lower(s))) == QualityRank(JStr(s))
  {
    assert ToStr(Or(JStr(Lower(s)), JStr(""))) == Lower(s);
    assert ToStr(Or(JStr(s), JStr(""))) == s;
    LowerJsTrim(s);
    LowerIdempotent(JsTrim(s));
  }

  // ---------------------------------------------------------------------
  // Last four digits
  // ---------------------------------------------------------------------

  /** `getLast4Digits`: the last four digits of the value, or nothing when it has fewer. */
  function Last4Digits(value: JsValue): (r: string)
    ensures r == [] <==> |Digits(ToStr(Or(value, JStr(""))))| < 4
    ensures r != [] ==> |r| == 4 && AllDigits(r) && EndsWith(Digits(ToStr(Or(value, JStr("")))), r)
  {
    var digits := Digits(ToStr(Or(value, JStr(""))));
    if |digits| >= 4 then digits[|digits| - 4..] else []
  }

  /** Taking the last four digits twice gives the same four. */
  lemma Last4Idempotent(value: JsValue)
    ensures Last4Digits(JStr(Last4Digits(value))) == Last4Digits(value)
  {
    var r := Last4Digits(value);
    if r != [] {
      assert ToStr(Or(JStr(r), JStr(""))) == r;
      DigitsOfDigits(r);
      assert r[|r| - 4..] == r;
    }
  }

  // ---------------------------------------------------------------------
  // Interval sliders
  // ---------------------------------------------------------------------

  /** The two range inputs (1..60 seconds) for the random interval between sends. */
  class IntervalForm {
    var intervalMin: int
    var intervalMax: int

    /** Both sliders within their range and the minimum not above the maximum. */
    predicate Valid()
      reads this
    {
      1 <= intervalMin <= intervalMax <= 60
    }

    constructor()
      ensures intervalMin == 15 && intervalMax == 30 && Valid()
    {
      intervalMin := 15;
      intervalMax := 30;
    }

    /** Moving the minimum pushes the maximum up with it when it passes it. */
    method SetMin(newMin: int)
      requires Valid() && 1 <= newMin <= 60
      modifies this
      ensures intervalMin == newMin
      ensures intervalMax == if newMin > old(intervalMax) then newMin else old(intervalMax)
      ensures Valid()
    {
      intervalMax := if newMin > intervalMax then newMin else intervalMax;
      intervalMin := newMin;
    }

    /** Moving the maximum pulls the minimum down with it when it passes it. */
    method SetMax(newMax: int)
      requires Valid() && 1 <= newMax <= 60
      modifies this
      ensures intervalMax == newMax
      ensures intervalMin == if old(intervalMin) < newMax then old(intervalMin) else newMax
      ensures Valid()
    {
      intervalMin := if intervalMin < newMax then intervalMin else newMax;
      intervalMax := newMax;
    }
  }
}
