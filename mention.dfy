/** The mention normalizer of the `/slack/events` handler:
    `event.text.replace(/<@[^>]+>/, '').trim()`. */
module Mention {
  import opened Wrappers
  import opened Text

  /** `s[i..j+1]` is a match of `<@[^>]+>`: the characters `<@`, at least one
      character other than `>`, then `>`. Because `[^>]` cannot match `>`, the
      closing `>` is the first `>` after `<@`. */
  ghost predicate IsMention(s: string, i: nat, j: nat) {
    && i + 3 <= j < |s|
    && s[i] == '<' && s[i + 1] == '@' && s[j] == '>'
    && forall k :: i + 2 <= k < j ==> s[k] != '>'
  }

  ghost predicate HasMention(s: string) {
    exists i: nat, j: nat :: IsMention(s, i, j)
  }

  /** The match the regular expression finds: the one with the leftmost start. */
  ghost predicate IsLeftmostMention(s: string, i: nat, j: nat) {
    && IsMention(s, i, j)
    && forall i': nat, j': nat :: i' < i ==> !IsMention(s, i', j')
  }

  /** Index of the first `>` at or after `k`. */
  function CloseFrom(s: string, k: nat): (r: Option<nat>)
    decreases |s| - k
    ensures r.Some? ==> k <= r.value < |s| && s[r.value] == '>'
    ensures r.Some? ==> forall m :: k <= m < r.value ==> s[m] != '>'
    ensures r.None? ==> forall m :: k <= m < |s| ==> s[m] != '>'
  {
    if k >= |s| then None
    else if s[k] == '>' then Some(k)
    else CloseFrom(s, k + 1)
  }

  /** The end of the match that starts at `i`, if one does. */
  function MentionAt(s: string, i: nat): (r: Option<nat>)
    ensures r.Some? ==> IsMention(s, i, r.value)
    ensures r.None? ==> forall j: nat :: !IsMention(s, i, j)
  {
    if i + 2 < |s| && s[i] == '<' && s[i + 1] == '@' && s[i + 2] != '>' then
      CloseFrom(s, i + 2)
    else
      None
  }

  /** The leftmost match that starts at or after `from`, as (start, end). */
  function FindMention(s: string, from: nat): (r: Option<(nat, nat)>)
    decreases |s| - from
    ensures r.Some? ==> from <= r.value.0 && IsMention(s, r.value.0, r.value.1)
    ensures r.Some? ==> forall i: nat, j: nat :: from <= i < r.value.0 ==> !IsMention(s, i, j)
    ensures r.None? ==> forall i: nat, j: nat :: from <= i ==> !IsMention(s, i, j)
  {
    if from >= |s| then None
    else
      match MentionAt(s, from)
      case Some(j) => Some((from, j))
      case None => FindMention(s, from + 1)
  }

  /** `s.replace(/<@[^>]+>/, '')`: without a match the string is unchanged;
      otherwise exactly the leftmost match is cut out and everything before
      and after it is kept in order. */
  function StripFirstMention(s: string): (r: string)
    ensures !HasMention(s) ==> r == s
    ensures HasMention(s) ==>
              exists i: nat, j: nat :: IsLeftmostMention(s, i, j) && r == s[..i] + s[j + 1..]
  {
    match FindMention(s, 0)
    case None => s
    case Some((i, j)) =>
      assert IsLeftmostMention(s, i, j);
      s[..i] + s[j + 1..]
  }

  /** The query text of a mention event: the first mention removed, then
      trimmed. Text without a mention is only trimmed. */
  function Normalize(s: string): (r: string)
    ensures IsTrimmed(r)
    ensures !HasMention(s) ==> r == Trim(s)
  {
    Trim(StripFirstMention(s))
  }

  /** A match inside a slice is a match in the whole string, shifted. */
  lemma MentionInSlice(s: string, a: nat, b: nat, i: nat, j: nat)
    requires a <= b <= |s| && IsMention(s[a..b], i, j)
    ensures IsMention(s, a + i, a + j)
  {
    var t := s[a..b];
    forall k | a + i + 2 <= k < a + j ensures s[k] != '>' {
      assert s[k] == t[k - a];
    }
  }

  /** A string without mentions has no mention in any of its slices. */
  lemma NoMentionInSlice(s: string, a: nat, b: nat)
    requires a <= b <= |s| && !HasMention(s)
    ensures !HasMention(s[a..b])
  {
    forall i: nat, j: nat | IsMention(s[a..b], i, j) ensures false {
      MentionInSlice(s, a, b, i, j);
    }
  }

  /** Removing whitespace around a mention-free string leaves it mention-free. */
  lemma NoMentionInCore(s: string, r: string, a: nat)
    requires IsCoreOf(s, r, a) && !HasMention(s)
    ensures !HasMention(r)
  {
    NoMentionInSlice(s, a, a + |r|);
  }

  /** Normalizing text that has no mention yields text without a mention. */
  lemma NormalizeKeepsNoMention(s: string)
    requires !HasMention(s)
    ensures !HasMention(Normalize(s))
  {
    var r := Trim(s);
    var a: nat :| IsCoreOf(s, r, a);
    NoMentionInCore(s, r, a);
  }

  /** On text without a mention, normalizing twice is normalizing once. */
  lemma NormalizeIdempotentWithoutMention(s: string)
    requires !HasMention(s)
    ensures Normalize(Normalize(s)) == Normalize(s)
  {
    NormalizeKeepsNoMention(s);
    TrimOfTrimmed(Normalize(s));
  }

  /** A typical event text: the bot's mention goes, the rest stays. */
  lemma StripExample()
    ensures StripFirstMention("<@U01> pizza ") == " pizza "
  {
    var s := "<@U01> pizza ";
    assert CloseFrom(s, 5) == Some(5);
    assert CloseFrom(s, 2) == Some(5);
    assert FindMention(s, 0) == Some((0, 5));
    assert s[..0] + s[6..] == " pizza ";
  }

  /** ... trimming removes the space the mention left behind ... */
  lemma TrimExample()
    ensures Trim(" pizza ") == "pizza"
  {
    var t := " pizza ";
    assert t[1..6] == "pizza" && t[0] == ' ' && t[6] == ' ';
    assert IsCoreOf(t, "pizza", 1);
    TrimUnique(t, "pizza", 1);
  }

  /** ... so the query is the text after the mention. */
  lemma NormalizeExample()
    ensures Normalize("<@U01> pizza ") == "pizza"
  {
    StripExample();
    TrimExample();
  }

  /** Of two mentions only the first is removed. */
  lemma StripTwoMentions()
    ensures StripFirstMention("<@a><@b>") == "<@b>"
  {
    var s := "<@a><@b>";
    assert CloseFrom(s, 3) == Some(3);
    assert CloseFrom(s, 2) == Some(3);
    assert FindMention(s, 0) == Some((0, 3));
    assert s[..0] + s[4..] == "<@b>";
  }

  /** The mention left over is removed by a second pass. */
  lemma StripOneMention()
    ensures StripFirstMention("<@b>") == ""
  {
    var t := "<@b>";
    assert CloseFrom(t, 3) == Some(3);
    assert CloseFrom(t, 2) == Some(3);
    assert FindMention(t, 0) == Some((0, 3));
    assert t[..0] + t[4..] == "";
  }

  /** So with two mentions normalizing again changes the result: idempotence
      needs the mention-free precondition. */
  lemma NormalizeNotIdempotentWithTwoMentions()
    ensures Normalize("<@a><@b>") == "<@b>"
    ensures Normalize(Normalize("<@a><@b>")) == ""
  {
    assert Normalize("<@a><@b>") == "<@b>" by {
      StripTwoMentions();
      TrimOfTrimmed("<@b>");
    }
    assert Normalize("<@b>") == "" by {
      StripOneMention();
      TrimOfTrimmed("");
    }
  }

  /** A bare `<@>` is not a mention: `[^>]+` needs at least one character. */
  lemma BareMarkerIsNotMention()
    ensures Normalize(" <@> ") == "<@>"
  {
    var s := " <@> ";
    assert MentionAt(s, 0) == None;
    assert MentionAt(s, 1) == None;
    assert FindMention(s, 5) == None;
    assert FindMention(s, 4) == None;
    assert FindMention(s, 3) == None;
    assert FindMention(s, 2) == None;
    assert FindMention(s, 0) == None;
    assert StripFirstMention(s) == s;
    assert s[1..4] == "<@>" && s[0] == ' ' && s[4] == ' ';
    assert IsCoreOf(s, "<@>", 1);
    TrimUnique(s, "<@>", 1);
  }
}
