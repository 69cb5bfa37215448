/** The reply the mention handler posts: at most three search results, each
    rendered as a numbered entry, under a header that repeats the query. */
module Format {
  import opened Wrappers

  /** One element of the search response's `items`; a field that is absent
      is `None`. */
  datatype SearchItem = SearchItem(title: Option<string>, link: Option<string>)

  /** `.slice(0, 3)`: a conversational reply shows at most three results. */
  const MaxShown: nat := 3

  const EntrySeparator := "\n\n"

  const NoResults := "검색 결과가 없습니다."

  // ---------------------------------------------------------------------------
  // Decimal rendering of the entry number (`${i + 1}`)

  function DigitChar(d: nat): (c: char)
    requires d < 10
    ensures '0' <= c <= '9' && c as int - '0' as int == d
  {
    "0123456789"[d]
  }

  /** JavaScript's rendering of a non-negative integer below 10^21 in a
      template literal: its decimal digits, most significant first. */
  function Decimal(n: nat): (r: string)
    decreases n
    ensures |r| >= 1
    ensures forall k :: 0 <= k < |r| ==> '0' <= r[k] <= '9'
    ensures r[0] == '0' <==> n == 0
    ensures r[0] == '0' ==> |r| == 1
  {
    if n < 10 then [DigitChar(n)] else Decimal(n / 10) + [DigitChar(n % 10)]
  }

  /** Reads a string of decimal digits back as a number. */
  function DecimalValue(s: string): nat
    requires forall k :: 0 <= k < |s| ==> '0' <= s[k] <= '9'
  {
    if s == [] then 0
    else DecimalValue(s[..|s| - 1]) * 10 + (s[|s| - 1] as int - '0' as int)
  }

  /** The digits of `n` denote `n`. */
  lemma {:induction false} DecimalRoundTrip(n: nat)
    ensures DecimalValue(Decimal(n)) == n
  {
    var r := Decimal(n);
    if n >= 10 {
      assert r[..|r| - 1] == Decimal(n / 10);
      DecimalRoundTrip(n / 10);
    }
  }

  // ---------------------------------------------------------------------------
  // Array.prototype.join

  /** `parts.join(sep)`. */
  function Join(parts: seq<string>, sep: string): string
  {
    if |parts| == 0 then ""
    else if |parts| == 1 then parts[0]
    else parts[0] + sep + Join(parts[1..], sep)
  }

  /** Where `parts[k]` starts in `Join(parts, sep)`: after every earlier part
      and one separator for each. */
  function Offset(parts: seq<string>, sep: string, k: nat): nat
    requires k <= |parts|
  {
    if k == 0 then 0 else |parts[0]| + |sep| + Offset(parts[1..], sep, k - 1)
  }

  /** Every part appears, unchanged, at its offset. */
  lemma {:induction false} JoinPart(parts: seq<string>, sep: string, k: nat)
    requires k < |parts|
    ensures Offset(parts, sep, k) + |parts[k]| <= |Join(parts, sep)|
    ensures Join(parts, sep)[Offset(parts, sep, k)..Offset(parts, sep, k) + |parts[k]|] == parts[k]
  {
    if k > 0 {
      JoinPart(parts[1..], sep, k - 1);
      var tail := Join(parts[1..], sep);
      var o := Offset(parts[1..], sep, k - 1);
      var p := |parts[0]| + |sep|;
      assert Join(parts, sep) == parts[0] + sep + tail;
      assert Join(parts, sep)[p + o..p + o + |parts[k]|] == tail[o..o + |parts[k]|];
    }
  }

  /** Between two consecutive parts there is exactly one separator. */
  lemma {:induction false} JoinSeparator(parts: seq<string>, sep: string, k: nat)
    requires k + 1 < |parts|
    ensures Offset(parts, sep, k) + |parts[k]| + |sep| == Offset(parts, sep, k + 1)
    ensures Offset(parts, sep, k + 1) <= |Join(parts, sep)|
    ensures Join(parts, sep)[Offset(parts, sep, k) + |parts[k]|..Offset(parts, sep, k + 1)] == sep
  {
    var j := Join(parts, sep);
    assert j == parts[0] + sep + Join(parts[1..], sep);
    if k == 0 {
      assert j[|parts[0]|..|parts[0]| + |sep|] == sep;
    } else {
      JoinSeparator(parts[1..], sep, k - 1);
      var tail := Join(parts[1..], sep);
      var o := Offset(parts[1..], sep, k - 1) + |parts[k]|;
      var p := |parts[0]| + |sep|;
      assert j[p + o..p + o + |sep|] == tail[o..o + |sep|];
    }
  }

  /** The joined string ends with the last part: nothing follows it. */
  lemma {:induction false} JoinLength(parts: seq<string>, sep: string)
    requires |parts| > 0
    ensures |Join(parts, sep)| == Offset(parts, sep, |parts| - 1) + |parts[|parts| - 1]|
  {
    if |parts| > 1 {
      var tail := parts[1..];
      JoinLength(tail, sep);
      assert Join(parts, sep) == parts[0] + sep + Join(tail, sep);
      assert Offset(parts, sep, |parts| - 1) == |parts[0]| + |sep| + Offset(tail, sep, |tail| - 1);
      assert tail[|tail| - 1] == parts[|parts| - 1];
    }
  }

  // ---------------------------------------------------------------------------
  // Result shaping and message text

  /** `(items || []).slice(0, 3)`: a missing list is empty; at most the first
      three items are kept, in upstream order. */
  function Shown(items: Option<seq<SearchItem>>): (r: seq<SearchItem>)
    ensures |r| <= MaxShown
    ensures |r| <= |items.GetOr([])| && r == items.GetOr([])[..|r|]
    ensures |r| < MaxShown ==> r == items.GetOr([])
  {
    var all := items.GetOr([]);
    if |all| <= MaxShown then all else all[..MaxShown]
  }

  /** `${v}` for a field: an absent field is rendered as `undefined`. */
  function Interpolate(v: Option<string>): string
  {
    match v
    case Some(s) => s
    case None => "undefined"
  }

  /** Entry `k` (0-based): `${k + 1}. *${title}*\n${link}`. */
  function Entry(k: nat, item: SearchItem): (r: string)
    ensures |r| > 0 && '0' <= r[0] <= '9'
  {
    Decimal(k + 1) + ". *" + Interpolate(item.title) + "*\n" + Interpolate(item.link)
  }

  /** `items.map((item, i) => ...)`. */
  function Entries(shown: seq<SearchItem>): (r: seq<string>)
    ensures |r| == |shown|
  {
    seq(|shown|, k requires 0 <= k < |shown| => Entry(k, shown[k]))
  }

  /** The `formatted` string: the shown entries joined by a blank line. */
  function Formatted(items: Option<seq<SearchItem>>): string
  {
    Join(Entries(Shown(items)), EntrySeparator)
  }

  /** The part of the message under the header: `formatted || fallback`. */
  function Body(items: Option<seq<SearchItem>>): (r: string)
    ensures |r| > 0
    ensures r == NoResults || r == Formatted(items)
  {
    var f := Formatted(items);
    if f == "" then NoResults else f
  }

  /** The first line of the message, quoting the refined query. */
  function Header(refined: string): (r: string)
    ensures 4 + |refined| < |r| && r[4..4 + |refined|] == refined
  {
    "\U{1F4CD} *\"" + refined + "\" 검색 결과입니다:*"
  }

  /** The posted message text: the header, a blank line, then the body. */
  function MessageText(refined: string, items: Option<seq<SearchItem>>): (r: string)
    ensures |Header(refined)| + 2 < |r| && r[..|Header(refined)|] == Header(refined)
    ensures r[|Header(refined)| + 2..] == Body(items)
  {
    Header(refined) + "\n\n" + Body(items)
  }

  // ---------------------------------------------------------------------------
  // Properties of the reply

  /** Entry `k` of the formatted list is the `k`-th upstream item, rendered
      with number `k + 1`, at the offset the entries before it leave. */
  lemma FormattedEntry(items: Option<seq<SearchItem>>, k: nat)
    requires k < |Shown(items)|
    ensures k < |items.GetOr([])| && Shown(items)[k] == items.GetOr([])[k]
    ensures var e := Entry(k, items.GetOr([])[k]);
            var o := Offset(Entries(Shown(items)), EntrySeparator, k);
            o + |e| <= |Formatted(items)| && Formatted(items)[o..o + |e|] == e
  {
    JoinPart(Entries(Shown(items)), EntrySeparator, k);
  }

  /** Consecutive entries are separated by exactly one blank line. */
  lemma FormattedSeparator(items: Option<seq<SearchItem>>, k: nat)
    requires k + 1 < |Shown(items)|
    ensures var es := Entries(Shown(items));
            var o := Offset(es, EntrySeparator, k) + |es[k]|;
            o + 2 <= |Formatted(items)| && Formatted(items)[o..o + 2] == EntrySeparator
  {
    JoinSeparator(Entries(Shown(items)), EntrySeparator, k);
  }

  /** The formatted list is empty exactly when no item is shown; otherwise it
      begins with the entry number `1`. */
  lemma FormattedEmptyIff(items: Option<seq<SearchItem>>)
    ensures Formatted(items) == "" <==> Shown(items) == []
    ensures Shown(items) != [] ==> Formatted(items)[0] == '1'
  {
    var shown := Shown(items);
    if shown != [] {
      JoinPart(Entries(shown), EntrySeparator, 0);
      assert Decimal(1) == "1";
      assert Entry(0, shown[0])[0] == '1';
      assert Formatted(items)[0] == Formatted(items)[0..|Entry(0, shown[0])|][0];
    }
  }

  /** The fallback text is the body exactly when the item list is empty
      (absent, or empty upstream); with any item the formatted list is used. */
  lemma FallbackIffNoItems(items: Option<seq<SearchItem>>)
    ensures Body(items) == NoResults <==> items.GetOr([]) == []
    ensures items.GetOr([]) != [] ==> Body(items) == Formatted(items)
  {
    FormattedEmptyIff(items);
    var all := items.GetOr([]);
    if all != [] {
      assert |Shown(items)| > 0;
      assert NoResults[0] != '1';
    }
  }

  /** The message always begins with the header quoting the refined query, so
      it is never empty; after the blank line comes the fallback text exactly
      when there is no item. */
  lemma MessageStartsWithHeader(refined: string, items: Option<seq<SearchItem>>)
    ensures var m := MessageText(refined, items);
            var h := Header(refined);
            && |h| + 2 < |m| && m[..|h|] == h && m[|h|..|h| + 2] == "\n\n"
            && (m[|h| + 2..] == NoResults <==> items.GetOr([]) == [])
    ensures Header(refined)[4..4 + |refined|] == refined
  {
    FallbackIffNoItems(items);
    var m := MessageText(refined, items);
    var h := Header(refined);
    assert m[|h| + 2..] == Body(items);
    assert |Body(items)| > 0;
  }
}
