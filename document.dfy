/** The text both scripts build from the page: the topic cut out of the title
    by `re.sub(r'^.*? <sep> ', '', title_text)`, and the output document
    (open-heavens/main.py and open-heavens/text-scrapper.py). */
module Document {
  import opened Outcomes
  import opened PyStr
  import opened Sections

  /** The separator text-scrapper.py looks for, and main.py means: space,
      en dash (U+2013), space. Both scripts' runs use it. */
  const EnDash := " \U{2013} "

  /** The separator as it stands in main.py: space, then the three characters
      an en dash's UTF-8 bytes become when read as Windows-1252, then space.
      `MainTopicKeepsEnDashTitle` shows what it does to an en dash title. */
  const MainSeparator := " \U{E2}\U{20AC}\U{201C} "

  /** Where the anchored lazy pattern `^.*?` followed by `sep` first matches,
      trying the end of `.*?` at `i`, then `i + 1`, and so on. `.` does not
      match a line break, so the search gives up at the first '\n'. The
      result is the index just after the matched separator. */
  function MatchEnd(title: string, sep: string, i: nat): (e: Option<nat>)
    requires i <= |title|
    ensures e.Some? ==> i + |sep| <= e.value <= |title| && OccursAt(title, sep, e.value - |sep|)
    decreases |title| - i
  {
    if OccursAt(title, sep, i) then Some(i + |sep|)
    else if i == |title| || title[i] == '\n' then None
    else MatchEnd(title, sep, i + 1)
  }

  /** `re.sub(r'^.*?' + sep, '', title)`: the title without the shortest
      prefix ending in `sep`, or the title itself when there is no match.
      */
  function Topic(title: string, sep: string): (r: string)
    ensures |r| <= |title|
  {
    match MatchEnd(title, sep, 0)
    case None => title
    case Some(e) => title[e..]
  }

  /** The topic is always a suffix of the title. */
  lemma TopicIsSuffix(title: string, sep: string)
    ensures Topic(title, sep) == title[|title| - |Topic(title, sep)|..]
  {
    match MatchEnd(title, sep, 0)
    case None =>
    case Some(e) =>
      assert |title| - |Topic(title, sep)| == e;
  }

  /** The search from `k` reaches the separator at `i` when nothing before
      `i` stops it. */
  lemma {:induction false} MatchFrom(title: string, sep: string, k: nat, i: nat)
    requires k <= i && OccursAt(title, sep, i)
    requires forall j :: k <= j < i ==> !OccursAt(title, sep, j) && title[j] != '\n'
    ensures MatchEnd(title, sep, k) == Some(i + |sep|)
    decreases i - k
  {
    if k < i {
      MatchFrom(title, sep, k + 1, i);
    }
  }

  /** The search from `k` finds nothing when no separator starts at or before
      the line break (or the end) at `n`. */
  lemma {:induction false} NoMatchFrom(title: string, sep: string, k: nat, n: nat)
    requires k <= n <= |title| && (n == |title| || title[n] == '\n')
    requires forall j :: k <= j <= n ==> !OccursAt(title, sep, j)
    requires forall j :: k <= j < n ==> title[j] != '\n'
    ensures MatchEnd(title, sep, k) == None
    decreases n - k
  {
    if k < n {
      NoMatchFrom(title, sep, k + 1, n);
    }
  }

  /** When the first separator starts at `i` and no line break comes before
      it, the topic is everything after that separator. */
  lemma TopicAfterFirstSeparator(title: string, sep: string, i: nat)
    requires OccursAt(title, sep, i)
    requires forall j :: 0 <= j < i ==> !OccursAt(title, sep, j) && title[j] != '\n'
    ensures Topic(title, sep) == title[i + |sep|..]
  {
    MatchFrom(title, sep, 0, i);
  }

  /** When no separator starts before the first line break (or anywhere, when
      there is none), the title is returned unchanged. */
  lemma TopicUnmatched(title: string, sep: string, n: nat)
    requires n <= |title| && (n == |title| || title[n] == '\n')
    requires forall j :: 0 <= j < n ==> title[j] != '\n'
    requires forall j :: 0 <= j <= n ==> !OccursAt(title, sep, j)
    ensures Topic(title, sep) == title
  {
    NoMatchFrom(title, sep, 0, n);
  }

  /** A title that does not contain the separator is returned unchanged. */
  lemma TopicWithoutSeparator(title: string, sep: string)
    requires !Contains(title, sep)
    ensures Topic(title, sep) == title
  {
    forall j | 0 <= j <= |title|
      ensures !OccursAt(title, sep, j)
    {
      if OccursAt(title, sep, j) {
        OccursAtContains(title, sep, j);
      }
    }
    NoMatchFrom(title, sep, 0, FirstBreak(title, 0));
  }

  /** The index of the first line break at or after `k`, or the length. */
  function FirstBreak(s: string, k: nat): (n: nat)
    requires k <= |s|
    ensures k <= n <= |s| && (n == |s| || s[n] == '\n')
    ensures forall j :: k <= j < n ==> s[j] != '\n'
    decreases |s| - k
  {
    if k == |s| || s[k] == '\n' then k else FirstBreak(s, k + 1)
  }

  /** The separator's second character is in any text that contains it. */
  lemma SeparatorCharacter(s: string, sep: string)
    requires |sep| >= 2 && Contains(s, sep)
    ensures sep[1] in s
  {
    var i := OccurrenceOf(s, sep);
    assert s[i + 1] == s[i..i + |sep|][1];
  }

  /** As written in main.py: a title made with a real en dash does not
      contain the mis-decoded separator, so it is returned whole. */
  lemma MainTopicKeepsEnDashTitle(before: string, after: string)
    requires '\U{E2}' !in before && '\U{E2}' !in after
    ensures Topic(before + EnDash + after, MainSeparator) == before + EnDash + after
  {
    var title := before + EnDash + after;
    assert '\U{E2}' !in title;
    if Contains(title, MainSeparator) {
      SeparatorCharacter(title, MainSeparator);
    }
    TopicWithoutSeparator(title, MainSeparator);
  }

  /** With the en dash separator (text-scrapper.py, and what main.py means),
      the text before the first " – " on the title's first line is cut off. */
  lemma EnDashTopic(before: string, after: string)
    requires '\U{2013}' !in before && '\n' !in before
    ensures Topic(before + EnDash + after, EnDash) == after
  {
    var title := before + EnDash + after;
    var i := |before|;
    assert title[i..i + 3] == EnDash;
    forall j | 0 <= j < i
      ensures !OccursAt(title, EnDash, j) && title[j] != '\n'
    {
      assert title[j] == before[j];
      if j + 1 < i {
        assert title[j + 1] == before[j + 1];
      } else {
        assert title[j + 1] == ' ';
      }
    }
    TopicAfterFirstSeparator(title, EnDash, i);
    assert title[i + 3..] == after;
  }

  /** The part of the document both scripts write the same way: the date,
      the topic and the first four sections, up to the MESSAGE text, one
      field per paragraph. */
  function Head(date: string, topic: string, s: SectionTexts): string
  {
    ("DATE: " + date) + "\n\n" + ("TOPIC: " + topic) + "\n\n"
    + ("MEMORISE: \"" + s.memorise + "\"") + "\n\n" + ("READ: " + s.read) + "\n\n"
    + ("BIBLE IN ONE YEAR: " + s.bibleInOneYear) + "\n\n" + "MESSAGE" + "\n\n" + s.message
  }

  /** `REFLECTION (<kind>)`, the reflection text, and a final line break. */
  function ReflectionBlock(s: SectionTexts, kind: Kind): string
  {
    ("REFLECTION (" + KindLabel(kind) + ")") + "\n" + s.reflection + "\n"
  }

  /** The f-string main.py writes: the reflection block is always there, with
      an empty label when no ACTION POINT or KEY POINT line was seen. */
  function FormatMain(date: string, topic: string, s: SectionTexts, kind: Kind): string
  {
    Head(date, topic, s) + "\n\n" + ReflectionBlock(s, kind)
  }

  /** The text text-scrapper.py builds with `+=`: the same layout, with the
      reflection block only when a trigger was seen. */
  function FormatScraper(date: string, topic: string, s: SectionTexts, kind: Kind): string
  {
    Head(date, topic, s) + "\n\n" + (if kind != Unset then ReflectionBlock(s, kind) else "")
  }

  function Format(script: Script, date: string, topic: string, s: SectionTexts, kind: Kind): string
  {
    if script == Main then FormatMain(date, topic, s, kind) else FormatScraper(date, topic, s, kind)
  }

  /** Splitting text that starts with the character `c`. */
  lemma SplitCons(c: char, rest: string, sep: char)
    ensures Split([c] + rest, sep)
      == if c == sep then [[]] + Split(rest, sep)
         else [[c] + Split(rest, sep)[0]] + Split(rest, sep)[1..]
  {
    assert ([c] + rest)[0] == c;
    assert ([c] + rest)[1..] == rest;
  }

  /** Splitting at a separator splits each side on its own. */
  lemma {:induction false} SplitAppend(a: string, b: string, sep: char)
    ensures Split(a + [sep] + b, sep) == Split(a, sep) + Split(b, sep)
    decreases |a|
  {
    if a == [] {
      assert a + [sep] + b == [sep] + b;
      SplitCons(sep, b, sep);
    } else {
      var c, a' := a[0], a[1..];
      assert a == [c] + a';
      assert a + [sep] + b == [c] + (a' + [sep] + b);
      SplitCons(c, a' + [sep] + b, sep);
      SplitCons(c, a', sep);
      SplitAppend(a', b, sep);
      var r, t := Split(a', sep), Split(b, sep);
      if c != sep {
        assert (r + t)[0] == r[0];
        assert (r + t)[1..] == r[1..] + t;
        Associate([[c] + r[0]], r[1..], t);
      } else {
        Associate([[]], r, t);
      }
    }
  }

  lemma Associate<T>(x: seq<T>, y: seq<T>, z: seq<T>)
    ensures x + (y + z) == x + y + z
  {
  }

  /** A line break between `x` and `y`. */
  lemma LineBreak(x: string, y: string)
    ensures Split(x + "\n" + y, '\n') == Split(x, '\n') + Split(y, '\n')
  {
    SplitAppend(x, y, '\n');
  }

  /** A line break at the end leaves an empty last line. */
  lemma FinalLineBreak(x: string)
    ensures Split(x + "\n", '\n') == Split(x, '\n') + [""]
  {
    assert x + "\n" == x + "\n" + [];
    SplitAppend(x, [], '\n');
  }

  /** A blank line between the paragraphs `x` and `y`. */
  lemma ParagraphBreak(x: string, y: string)
    ensures Split(x + "\n\n" + y, '\n') == Split(x, '\n') + [""] + Split(y, '\n')
  {
    assert x + "\n\n" + y == x + ['\n'] + ([] + ['\n'] + y);
    SplitAppend(x, [] + ['\n'] + y, '\n');
    SplitAppend([], y, '\n');
  }

  /** The lines of `Head`: one per field, a blank line between fields, and
      MESSAGE on a line of its own. */
  function HeadLines(date: string, topic: string, s: SectionTexts): seq<string>
  {
    Split("DATE: " + date, '\n') + [""] + Split("TOPIC: " + topic, '\n') + [""]
    + Split("MEMORISE: \"" + s.memorise + "\"", '\n') + [""] + Split("READ: " + s.read, '\n') + [""]
    + Split("BIBLE IN ONE YEAR: " + s.bibleInOneYear, '\n') + [""] + ["MESSAGE"] + [""] + Split(s.message, '\n')
  }

  lemma HeadLayout(date: string, topic: string, s: SectionTexts)
    ensures Split(Head(date, topic, s), '\n') == HeadLines(date, topic, s)
  {
    var f1 := "DATE: " + date;
    var f2 := f1 + "\n\n" + ("TOPIC: " + topic);
    ParagraphBreak(f1, "TOPIC: " + topic);
    var f3 := f2 + "\n\n" + ("MEMORISE: \"" + s.memorise + "\"");
    ParagraphBreak(f2, "MEMORISE: \"" + s.memorise + "\"");
    var f4 := f3 + "\n\n" + ("READ: " + s.read);
    ParagraphBreak(f3, "READ: " + s.read);
    var f5 := f4 + "\n\n" + ("BIBLE IN ONE YEAR: " + s.bibleInOneYear);
    ParagraphBreak(f4, "BIBLE IN ONE YEAR: " + s.bibleInOneYear);
    var f6 := f5 + "\n\n" + "MESSAGE";
    ParagraphBreak(f5, "MESSAGE");
    assert '\n' !in "MESSAGE";
    SplitPiece("MESSAGE", [], '\n');
    ParagraphBreak(f6, s.message);
  }

  /** The lines of the reflection block. */
  function ReflectionLines(s: SectionTexts, kind: Kind): seq<string>
  {
    ["REFLECTION (" + KindLabel(kind) + ")"] + Split(s.reflection, '\n') + [""]
  }

  lemma ReflectionLayout(s: SectionTexts, kind: Kind)
    ensures Split(ReflectionBlock(s, kind), '\n') == ReflectionLines(s, kind)
  {
    var heading := "REFLECTION (" + KindLabel(kind) + ")";
    assert '\n' !in heading;
    SplitPiece(heading, [], '\n');
    LineBreak(heading, s.reflection);
    FinalLineBreak(heading + "\n" + s.reflection);
  }

  /** main.py's document line by line: the head, a blank line, then the
      reflection block, present even when the label is empty. */
  lemma MainLayout(date: string, topic: string, s: SectionTexts, kind: Kind)
    ensures Split(FormatMain(date, topic, s, kind), '\n')
      == HeadLines(date, topic, s) + [""] + ReflectionLines(s, kind)
  {
    HeadLayout(date, topic, s);
    ReflectionLayout(s, kind);
    ParagraphBreak(Head(date, topic, s), ReflectionBlock(s, kind));
  }

  /** text-scrapper.py's document line by line: the reflection block is there
      exactly when a trigger was seen; otherwise the document ends with the
      MESSAGE text and two line breaks. */
  lemma ScraperLayout(date: string, topic: string, s: SectionTexts, kind: Kind)
    ensures Split(FormatScraper(date, topic, s, kind), '\n')
      == HeadLines(date, topic, s) + [""]
         + (if kind != Unset then ReflectionLines(s, kind) else [""])
  {
    HeadLayout(date, topic, s);
    var block := if kind != Unset then ReflectionBlock(s, kind) else "";
    ParagraphBreak(Head(date, topic, s), block);
    if kind != Unset {
      ReflectionLayout(s, kind);
    }
  }

  /** main.py's document always holds the reflection heading with its label,
      and text-scrapper.py's differs from it only by leaving out the block
      when no trigger was seen. */
  lemma FormatsAgree(date: string, topic: string, s: SectionTexts, kind: Kind)
    ensures Contains(FormatMain(date, topic, s, kind), "REFLECTION (" + KindLabel(kind) + ")\n")
    ensures kind != Unset ==> FormatScraper(date, topic, s, kind) == FormatMain(date, topic, s, kind)
    ensures kind == Unset ==>
      FormatMain(date, topic, s, kind) == FormatScraper(date, topic, s, kind) + "REFLECTION ()\n" + s.reflection + "\n"
  {
    var before := Head(date, topic, s) + "\n\n";
    ContainsInfix(before, "REFLECTION (" + KindLabel(kind) + ")\n", s.reflection + "\n");
    assert FormatMain(date, topic, s, kind)
      == before + ("REFLECTION (" + KindLabel(kind) + ")\n") + (s.reflection + "\n");
  }
}
