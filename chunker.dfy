/** Where `send_to_discord` cuts a text into webhook messages (the loop body
    is the same in open-heavens/main.py and open-heavens/text-scrapper.py).
    Each step takes the text before a split point, strips it and sends it,
    then strips what is left and goes round again while anything is left. */
module Chunker {
  import opened PyStr

  /** `max_length`: the most characters Discord accepts in one message. */
  const MaxLength: nat := 2000

  /** The split point the code takes when the first `MaxLength` characters
      hold no full stop: `split_point = max_length`. Because the message is
      `content[:split_point + 1]`, that message has `MaxLength + 1`
      characters. */
  const HardCut: nat := MaxLength

  /** The split point that makes a hard-cut message exactly `MaxLength`
      characters long, as the comments of both scripts intend. */
  const IntendedHardCut: nat := MaxLength - 1

  /** `s.rfind(c)`: the index of the last `c` in `s`, or -1. */
  function RFind(s: string, c: char): (r: int)
    ensures -1 <= r < |s|
    ensures r == -1 <==> c !in s
    ensures r >= 0 ==> s[r] == c && c !in s[r + 1..]
    decreases |s|
  {
    if s == [] then -1
    else if s[|s| - 1] == c then |s| - 1
    else
      var r := RFind(s[..|s| - 1], c);
      assert s == s[..|s| - 1] + [s[|s| - 1]];
      assert r >= 0 ==> s[r + 1..] == s[..|s| - 1][r + 1..] + [s[|s| - 1]];
      r
  }

  /** Python's `s[:n]` for `n >= 0`. */
  function Prefix(s: string, n: nat): (r: string)
    ensures |r| <= n && |r| <= |s|
  {
    if n <= |s| then s[..n] else s
  }

  /** Python's `s[n:]` for `n >= 0`. */
  function Suffix(s: string, n: nat): (r: string)
    ensures s == Prefix(s, n) + r
  {
    if n <= |s| then s[n..] else []
  }

  /** `split_point`: the index of the last character of the next message. */
  function SplitPoint(content: string, hardCut: nat): nat
  {
    if |content| > MaxLength then
      var dot := RFind(content[..MaxLength], '.');
      if dot == -1 then hardCut else dot
    else |content|
  }

  /** The longest message a given hard cut can produce. */
  function Bound(hardCut: nat): nat
  {
    if hardCut < MaxLength then MaxLength else hardCut + 1
  }

  /** `message`: the text sent by one round of the loop. */
  function Message(content: string, hardCut: nat): (m: string)
    ensures |m| <= Bound(hardCut)
  {
    Strip(Prefix(content, SplitPoint(content, hardCut) + 1))
  }

  /** `content` after one round of the loop: strictly shorter, so the
      loop ends. */
  function Remainder(content: string, hardCut: nat): (r: string)
    requires content != []
    ensures |r| < |content|
  {
    Strip(Suffix(content, SplitPoint(content, hardCut) + 1))
  }

  /** The messages the loop posts for `content`, in order, if every post
      succeeds. */
  function Messages(content: string, hardCut: nat): seq<string>
    decreases |content|
  {
    if content == [] then []
    else [Message(content, hardCut)] + Messages(Remainder(content, hardCut), hardCut)
  }

  /** `''.join(ms)` */
  function Concat(ms: seq<string>): string
  {
    if ms == [] then [] else ms[0] + Concat(ms[1..])
  }

  /** An empty text sends nothing; a non-empty one sends at least one
      message. */
  lemma MessagesEmpty(content: string, hardCut: nat)
    ensures Messages(content, hardCut) == [] <==> content == []
  {
  }

  /** A text of at most `MaxLength` characters is sent whole, stripped, as
      the one and last message. */
  lemma ShortTextIsOneMessage(content: string, hardCut: nat)
    requires 0 < |content| <= MaxLength
    ensures Messages(content, hardCut) == [Strip(content)]
  {
    assert Remainder(content, hardCut) == [];
  }

  /** A longer text with a full stop among its first `MaxLength` characters
      is cut just after the last such full stop: the message ends with that
      full stop and has at most `MaxLength` characters. */
  lemma LongTextCutAtLastStop(content: string, hardCut: nat, p: nat)
    requires |content| > MaxLength
    requires p < MaxLength && content[p] == '.'
    requires '.' !in content[p + 1..MaxLength]
    ensures Message(content, hardCut) == Strip(content[..p + 1])
    ensures Remainder(content, hardCut) == Strip(content[p + 1..])
    ensures var m := Message(content, hardCut);
      0 < |m| <= MaxLength && m[|m| - 1] == '.'
  {
    var dot := RFind(content[..MaxLength], '.');
    assert content[..MaxLength][p] == '.';
    assert dot == p;
    var pre := content[..p + 1];
    var m := Strip(pre);
    StripFacts(pre);
    assert pre[p] == '.' && !IsWhitespace('.');
    assert !IsBlank(pre);
    var a := LeadingWhitespace(pre);
    assert pre == pre[..a] + m + pre[a + |m|..];
    assert a + |m| == |pre|;
    assert m[|m| - 1] == pre[p];
  }

  /** A longer text with no full stop among its first `MaxLength`
      characters is cut after index `hardCut`. */
  lemma LongTextHardCut(content: string, hardCut: nat)
    requires |content| > MaxLength && hardCut < |content|
    requires '.' !in content[..MaxLength]
    ensures Message(content, hardCut) == Strip(content[..hardCut + 1])
    ensures Remainder(content, hardCut) == Strip(content[hardCut + 1..])
  {
  }

  /** Every message is within `Bound(hardCut)`: within `MaxLength + 1` as
      the code is written, within `MaxLength` with the intended cut. */
  lemma {:induction false} MessagesBounded(content: string, hardCut: nat)
    ensures forall i :: 0 <= i < |Messages(content, hardCut)| ==>
      |Messages(content, hardCut)[i]| <= Bound(hardCut)
    decreases |content|
  {
    if content != [] {
      MessagesBounded(Remainder(content, hardCut), hardCut);
    }
  }

  /** As written, a message can be one character over Discord's limit. */
  lemma AsWrittenBound(content: string)
    ensures forall m :: m in Messages(content, HardCut) ==> |m| <= MaxLength + 1
  {
    MessagesBounded(content, HardCut);
  }

  /** As written, 2001 characters without a full stop or whitespace go out
      as a single message of 2001 characters. */
  lemma OverlongHardCut()
    ensures var s := seq(MaxLength + 1, _ => 'a');
      Messages(s, HardCut) == [s] && |s| == MaxLength + 1
  {
    var s := seq(MaxLength + 1, _ => 'a');
    assert '.' !in s[..MaxLength];
    StripUnchanged(s);
    assert s[..HardCut + 1] == s;
    assert Remainder(s, HardCut) == [];
  }

  /** With the intended cut every message fits Discord's limit ... */
  lemma IntendedHardCutWithinLimit(content: string)
    ensures forall m :: m in Messages(content, IntendedHardCut) ==> |m| <= MaxLength
  {
    MessagesBounded(content, IntendedHardCut);
  }

  /** ... and 2001 characters without a full stop go out as 2000 and 1. */
  lemma IntendedHardCutSplits()
    ensures var s := seq(MaxLength + 1, _ => 'a');
      Messages(s, IntendedHardCut) == [s[..MaxLength], "a"]
  {
    var s := seq(MaxLength + 1, _ => 'a');
    assert '.' !in s[..MaxLength];
    StripUnchanged(s[..MaxLength]);
    assert s[MaxLength..] == "a";
    StripUnchanged("a");
    ShortTextIsOneMessage("a", IntendedHardCut);
  }

  /** A message taken from a text that starts with a non-whitespace
      character is not empty. */
  lemma FirstMessageNonEmpty(content: string, hardCut: nat)
    requires content != [] && !IsWhitespace(content[0])
    ensures Message(content, hardCut) != []
  {
    var pre := Prefix(content, SplitPoint(content, hardCut) + 1);
    StripEmpty(pre);
    assert pre[0] == content[0];
    assert !IsBlank(pre);
  }

  /** What is left after a round starts with a non-whitespace character. */
  lemma RemainderStart(content: string, hardCut: nat)
    requires content != [] && Remainder(content, hardCut) != []
    ensures !IsWhitespace(Remainder(content, hardCut)[0])
  {
    StripEnds(Suffix(content, SplitPoint(content, hardCut) + 1));
  }

  lemma ConsNonEmpty(m: string, ms: seq<string>)
    requires forall i :: 0 <= i < |ms| ==> ms[i] != []
    ensures forall i :: 1 <= i < |[m] + ms| ==> ([m] + ms)[i] != []
  {
    forall i | 1 <= i < |[m] + ms|
      ensures ([m] + ms)[i] != []
    {
      assert ([m] + ms)[i] == ms[i - 1];
    }
  }

  /** After the first message, no message is empty (the first is empty only
      when the text starts with whitespace, by `FirstMessageNonEmpty`). */
  lemma {:induction false} LaterMessagesNonEmpty(content: string, hardCut: nat)
    ensures forall i :: 1 <= i < |Messages(content, hardCut)| ==> Messages(content, hardCut)[i] != []
    decreases |content|
  {
    if content != [] {
      var rest := Remainder(content, hardCut);
      var ms := Messages(rest, hardCut);
      LaterMessagesNonEmpty(rest, hardCut);
      if rest != [] {
        RemainderStart(content, hardCut);
        FirstMessageNonEmpty(rest, hardCut);
        assert ms[0] != [];
      }
      ConsNonEmpty(Message(content, hardCut), ms);
    }
  }

  /** The text interleaves whitespace-only gaps with the messages:
      `gaps[0] + ms[0] + gaps[1] + ms[1] + ... + gaps[|ms|]`. */
  function Weave(gaps: seq<string>, ms: seq<string>): string
    requires |gaps| == |ms| + 1
    decreases |ms|
  {
    if ms == [] then gaps[0] else gaps[0] + ms[0] + Weave(gaps[1..], ms[1..])
  }

  /** Every gap is whitespace only. */
  predicate AllBlank(gaps: seq<string>)
  {
    forall i :: 0 <= i < |gaps| ==> IsBlank(gaps[i])
  }

  /** Widening the first gap. */
  lemma WeavePrepend(x: string, gaps: seq<string>, ms: seq<string>) returns (gaps': seq<string>)
    requires |gaps| == |ms| + 1
    requires IsBlank(x) && AllBlank(gaps)
    ensures |gaps'| == |gaps| && AllBlank(gaps')
    ensures x + Weave(gaps, ms) == Weave(gaps', ms)
  {
    gaps' := [x + gaps[0]] + gaps[1..];
    BlankAppend(x, gaps[0]);
    assert gaps'[1..] == gaps[1..];
    forall i | 1 <= i < |gaps'|
      ensures IsBlank(gaps'[i])
    {
      assert gaps'[i] == gaps[i];
    }
  }

  /** Widening the last gap. */
  lemma {:induction false} WeaveAppend(gaps: seq<string>, ms: seq<string>, y: string) returns (gaps': seq<string>)
    requires |gaps| == |ms| + 1
    requires IsBlank(y) && AllBlank(gaps)
    ensures |gaps'| == |gaps| && AllBlank(gaps')
    ensures Weave(gaps, ms) + y == Weave(gaps', ms)
    decreases |ms|
  {
    if ms == [] {
      gaps' := [gaps[0] + y];
      BlankAppend(gaps[0], y);
    } else {
      assert AllBlank(gaps[1..]) by {
        forall i | 0 <= i < |gaps| - 1
          ensures IsBlank(gaps[1..][i])
        {
          assert gaps[1..][i] == gaps[i + 1];
        }
      }
      var rest := WeaveAppend(gaps[1..], ms[1..], y);
      gaps' := [gaps[0]] + rest;
      assert gaps'[1..] == rest;
      forall i | 0 <= i < |gaps'|
        ensures IsBlank(gaps'[i])
      {
        if i > 0 {
          assert gaps'[i] == rest[i - 1];
        }
      }
    }
  }

  /** One round of the loop: the text is the message and the remainder
      with nothing but whitespace around them. */
  lemma OneRound(content: string, hardCut: nat) returns (lead: string, mid: string, tail: string)
    requires content != []
    ensures IsBlank(lead) && IsBlank(mid) && IsBlank(tail)
    ensures content == lead + Message(content, hardCut) + mid + Remainder(content, hardCut) + tail
  {
    var sp := SplitPoint(content, hardCut);
    var pre, suf := Prefix(content, sp + 1), Suffix(content, sp + 1);
    var l1, t1 := StripAround(pre);
    var l2, t2 := StripAround(suf);
    var m, rest := Strip(pre), Strip(suf);
    lead, mid, tail := l1, t1 + l2, t2;
    BlankAppend(t1, l2);
    calc {
      content;
      pre + suf;
      (l1 + m + t1) + (l2 + rest + t2);
      { AssociateFive(l1, m, t1, l2, rest, t2); }
      l1 + m + (t1 + l2) + rest + t2;
    }
  }

  lemma AssociateFour(a: string, b: string, c: string, d: string)
    ensures a + b + c + d == a + (b + (c + d))
  {
  }

  lemma AssociateFive(a: string, b: string, c: string, d: string, e: string, f: string)
    ensures (a + b + c) + (d + e + f) == a + b + (c + d) + e + f
  {
  }

  /** The messages are consecutive, non-overlapping pieces of the text, in
      order, and only whitespace between them is dropped. */
  lemma {:induction false} MessagesTile(content: string, hardCut: nat) returns (gaps: seq<string>)
    ensures |gaps| == |Messages(content, hardCut)| + 1 && AllBlank(gaps)
    ensures content == Weave(gaps, Messages(content, hardCut))
    decreases |content|
  {
    if content == [] {
      gaps := [[]];
    } else {
      var m, rest := Message(content, hardCut), Remainder(content, hardCut);
      var lead, mid, tail := OneRound(content, hardCut);
      var ms := Messages(rest, hardCut);
      var g := MessagesTile(rest, hardCut);
      var g1 := WeaveAppend(g, ms, tail);
      var g2 := WeavePrepend(mid, g1, ms);
      gaps := [lead] + g2;
      assert gaps[1..] == g2;
      forall i | 0 <= i < |gaps|
        ensures IsBlank(gaps[i])
      {
        if i > 0 {
          assert gaps[i] == g2[i - 1];
        }
      }
      assert Messages(content, hardCut) == [m] + ms;
      assert rest == Weave(g, ms);
      calc {
        content;
        lead + m + mid + rest + tail;
        { AssociateFour(lead + m, mid, rest, tail); }
        (lead + m) + (mid + (rest + tail));
        (lead + m) + (mid + Weave(g1, ms));
        (lead + m) + Weave(g2, ms);
        Weave(gaps, [m] + ms);
      }
    }
  }

  lemma {:induction false} RemoveWhitespaceWeave(gaps: seq<string>, ms: seq<string>)
    requires |gaps| == |ms| + 1
    requires AllBlank(gaps)
    ensures RemoveWhitespace(Weave(gaps, ms)) == RemoveWhitespace(Concat(ms))
    decreases |ms|
  {
    RemoveWhitespaceBlank(gaps[0]);
    if ms != [] {
      RemoveWhitespaceWeave(gaps[1..], ms[1..]);
      RemoveWhitespaceAppend(gaps[0] + ms[0], Weave(gaps[1..], ms[1..]));
      RemoveWhitespaceAppend(gaps[0], ms[0]);
      RemoveWhitespaceAppend(ms[0], Concat(ms[1..]));
    }
  }

  /** Deleting all whitespace from the text gives the same as deleting it
      from the concatenated messages. */
  lemma MessagesKeepText(content: string, hardCut: nat)
    ensures RemoveWhitespace(Concat(Messages(content, hardCut))) == RemoveWhitespace(content)
  {
    var gaps := MessagesTile(content, hardCut);
    RemoveWhitespaceWeave(gaps, Messages(content, hardCut));
  }
}
