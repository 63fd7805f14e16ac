/** The loop that sorts the devotional's lines into sections
    (open-heavens/main.py and open-heavens/text-scrapper.py). Each line is
    stripped; blank lines are skipped; a line holding a section marker
    starts that section and overwrites its text; any other line is appended
    to the current section. The two scripts differ in how a MESSAGE line
    seeds its section, in the order the reflection labels are removed, and
    in which line ends the scan. */
module Sections {
  import opened Outcomes
  import opened PyStr

  /** Which script's loop: open-heavens/main.py or open-heavens/text-scrapper.py. */
  datatype Script = Main | TextScraper

  /** The keys of the `sections` dictionary. */
  datatype Section = Memorise | Read | BibleInOneYear | Message | Reflection

  /** The `sections` dictionary: one text per key. */
  datatype SectionTexts = SectionTexts(
    memorise: string, read: string, bibleInOneYear: string, message: string, reflection: string)
  {
    /** `sections[s]` */
    function Get(s: Section): string
    {
      match s
      case Memorise => memorise
      case Read => read
      case BibleInOneYear => bibleInOneYear
      case Message => message
      case Reflection => reflection
    }

    /** `sections[s] = v`: that key gets `v`, every other key keeps its text. */
    function Set(s: Section, v: string): (r: SectionTexts)
      ensures r.Get(s) == v
      ensures forall t :: t != s ==> r.Get(t) == Get(t)
    {
      match s
      case Memorise => this.(memorise := v)
      case Read => this.(read := v)
      case BibleInOneYear => this.(bibleInOneYear := v)
      case Message => this.(message := v)
      case Reflection => this.(reflection := v)
    }
  }

  /** The dictionary as the loop starts: every section empty. */
  const Empty := SectionTexts("", "", "", "", "")

  /** `reflection_type` in main.py, `reflection_trigger` in text-scrapper.py:
      not yet set, 'Action Point' or 'Key Point'. */
  datatype Kind = Unset | ActionPoint | KeyPoint

  /** The text the template prints for a kind; unset prints as nothing. */
  function KindLabel(k: Kind): (s: string)
    ensures s == [] <==> k == Unset
  {
    match k
    case Unset => ""
    case ActionPoint => "Action Point"
    case KeyPoint => "Key Point"
  }

  /** The loop's variables: `sections`, `current_section` and the kind. */
  datatype State = State(sections: SectionTexts, current: Option<Section>, kind: Kind)

  const Start := State(Empty, None, Unset)

  /** The marker whose presence starts each of the first four sections. */
  function Marker(s: Section): string
  {
    match s
    case Memorise => "MEMORISE"
    case Read => "READ"
    case BibleInOneYear => "BIBLE IN ONE YEAR"
    case Message => "MESSAGE"
    case Reflection => "ACTION POINT"
  }

  /** The order in which the loop looks for the markers. */
  function Rank(s: Section): nat
  {
    match s
    case Memorise => 0
    case Read => 1
    case BibleInOneYear => 2
    case Message => 3
    case Reflection => 4
  }

  /** The line holds none of the four heading markers. */
  predicate NoHeading(line: string)
  {
    !Contains(line, "MEMORISE") && !Contains(line, "READ")
    && !Contains(line, "BIBLE IN ONE YEAR") && !Contains(line, "MESSAGE")
  }

  /** The line holds one of the two reflection labels. */
  predicate IsPoint(line: string)
  {
    Contains(line, "ACTION POINT") || Contains(line, "KEY POINT")
  }

  /** The line holds none of the markers the loop tests before HYMN. */
  predicate NoMarker(line: string)
  {
    NoHeading(line) && !IsPoint(line)
  }

  /** What a non-blank stripped line is to the loop. */
  datatype LineKind = Heading(section: Section) | Point | Hymn | Body

  /** The if/elif chain: the first marker found, in a fixed order, decides.
      HYMN is a marker in text-scrapper.py only. */
  function Classify(line: string, script: Script): (k: LineKind)
    ensures k.Heading? ==>
      && k.section != Reflection
      && Contains(line, Marker(k.section))
      && (forall t :: Rank(t) < Rank(k.section) ==> !Contains(line, Marker(t)))
    ensures k.Point? <==> NoHeading(line) && IsPoint(line)
    ensures k.Hymn? <==> script == TextScraper && NoMarker(line) && Contains(line, "HYMN")
    ensures k.Body? <==> NoMarker(line) && (script != TextScraper || !Contains(line, "HYMN"))
  {
    if Contains(line, "MEMORISE") then Heading(Memorise)
    else if Contains(line, "READ") then Heading(Read)
    else if Contains(line, "BIBLE IN ONE YEAR") then Heading(BibleInOneYear)
    else if Contains(line, "MESSAGE") then Heading(Message)
    else if Contains(line, "ACTION POINT") || Contains(line, "KEY POINT") then Point
    else if script == TextScraper && Contains(line, "HYMN") then Hymn
    else Body
  }

  /** The text a heading line leaves in its section: the line with its label
      removed everywhere and stripped. main.py removes the bare word MESSAGE
      and keeps the rest of the line; text-scrapper.py empties MESSAGE. */
  function Seed(s: Section, line: string, script: Script): string
  {
    match s
    case Memorise => Strip(Replace(line, "MEMORISE:", ""))
    case Read => Strip(Replace(line, "READ:", ""))
    case BibleInOneYear => Strip(Replace(line, "BIBLE IN ONE YEAR:", ""))
    case Message => if script == Main then Strip(Replace(line, "MESSAGE", "")) else ""
    case Reflection => ReflectionText(line, script)
  }

  /** The reflection line without its labels. main.py removes "ACTION POINT:",
      "ACTION POINT", "KEY POINT:", "KEY POINT" in that order; text-scrapper.py
      removes "ACTION POINT:", "KEY POINT:", "ACTION POINT", "KEY POINT". */
  function ReflectionText(line: string, script: Script): string
  {
    if script == Main then
      Strip(Replace(Replace(Replace(Replace(line, "ACTION POINT:", ""), "ACTION POINT", ""), "KEY POINT:", ""), "KEY POINT", ""))
    else
      Strip(Replace(Replace(Replace(Replace(line, "ACTION POINT:", ""), "KEY POINT:", ""), "ACTION POINT", ""), "KEY POINT", ""))
  }

  /** 'Action Point' when the line says ACTION POINT, otherwise 'Key Point'. */
  function PointKind(line: string): Kind
  {
    if Contains(line, "ACTION POINT") then ActionPoint else KeyPoint
  }

  /** One pass of the loop body on a raw line: the new state, and whether the
      loop breaks (main.py after a reflection line, text-scrapper.py at a
      HYMN line). */
  function Step(st: State, raw: string, script: Script): (State, bool)
  {
    var line := Strip(raw);
    if line == [] then (st, false)
    else
      match Classify(line, script)
      case Heading(s) => (State(st.sections.Set(s, Seed(s, line, script)), Some(s), st.kind), false)
      case Point =>
        (State(st.sections.Set(Reflection, ReflectionText(line, script)), Some(Reflection), PointKind(line)),
         script == Main)
      case Hymn => (st, true)
      case Body =>
        if st.current.Some? then
          var c := st.current.value;
          (State(st.sections.Set(c, st.sections.Get(c) + "\n" + line), st.current, st.kind), false)
        else (st, false)
  }

  /** The loop over `lines` from state `st`: the final state, and whether it
      ended with a break. */
  function Run(lines: seq<string>, st: State, script: Script): (State, bool)
    decreases |lines|
  {
    if lines == [] then (st, false)
    else
      var next := Step(st, lines[0], script);
      if next.1 then next else Run(lines[1..], next.0, script)
  }

  /** The state the loop leaves for the page text `text`. */
  function Assembled(text: string, script: Script): State
  {
    Run(Split(text, '\n'), Start, script).0
  }

  /** The body of the section loop for one raw line: strip it, skip it if
      blank, otherwise test the markers in order and update the sections,
      the current section and the kind; `stop` says the loop breaks. */
  method ProcessLine(sections: SectionTexts, current: Option<Section>, kind: Kind, raw: string, script: Script)
    returns (sections': SectionTexts, current': Option<Section>, kind': Kind, stop: bool)
    ensures (State(sections', current', kind'), stop) == Step(State(sections, current, kind), raw, script)
  {
    sections', current', kind', stop := sections, current, kind, false;
    var line := Strip(raw);
    if line == [] {
      return;
    }
    if Contains(line, "MEMORISE") {
      current' := Some(Memorise);
      sections' := sections.Set(Memorise, Strip(Replace(line, "MEMORISE:", "")));
    } else if Contains(line, "READ") {
      current' := Some(Read);
      sections' := sections.Set(Read, Strip(Replace(line, "READ:", "")));
    } else if Contains(line, "BIBLE IN ONE YEAR") {
      current' := Some(BibleInOneYear);
      sections' := sections.Set(BibleInOneYear, Strip(Replace(line, "BIBLE IN ONE YEAR:", "")));
    } else if Contains(line, "MESSAGE") {
      current' := Some(Message);
      if script == Main {
        sections' := sections.Set(Message, Strip(Replace(line, "MESSAGE", "")));
      } else {
        sections' := sections.Set(Message, "");
      }
    } else if Contains(line, "ACTION POINT") || Contains(line, "KEY POINT") {
      kind' := if Contains(line, "ACTION POINT") then ActionPoint else KeyPoint;
      current' := Some(Reflection);
      sections' := sections.Set(Reflection, ReflectionText(line, script));
      stop := script == Main;
    } else if script == TextScraper && Contains(line, "HYMN") {
      stop := true;
    } else if current.Some? {
      sections' := sections.Set(current.value, sections.Get(current.value) + "\n" + line);
    }
  }

  /** The section loop of `scrape_latest_open_heavens`. */
  method AssembleSections(text: string, script: Script) returns (sections: SectionTexts, kind: Kind)
    ensures sections == Assembled(text, script).sections
    ensures kind == Assembled(text, script).kind
  {
    var lines := Split(text, '\n');
    sections := Empty;
    var current: Option<Section> := None;
    kind := Unset;
    for i := 0 to |lines|
      invariant Run(lines[i..], State(sections, current, kind), script) == Run(lines, Start, script)
    {
      assert lines[i..] == [lines[i]] + lines[i + 1..];
      var stop;
      sections, current, kind, stop := ProcessLine(sections, current, kind, lines[i], script);
      if stop {
        return;
      }
    }
  }

  /** A break ends the scan: lines after the one that broke are never read. */
  lemma {:induction false} LaterLinesIgnored(lines: seq<string>, more: seq<string>, st: State, script: Script)
    requires Run(lines, st, script).1
    ensures Run(lines + more, st, script) == Run(lines, st, script)
    decreases |lines|
  {
    assert (lines + more)[0] == lines[0];
    var next := Step(st, lines[0], script);
    if !next.1 {
      assert (lines + more)[1..] == lines[1..] + more;
      LaterLinesIgnored(lines[1..], more, next.0, script);
    }
  }

  /** main.py breaks exactly at the first reflection line. */
  lemma MainBreaksAtPoint(st: State, raw: string)
    ensures Step(st, raw, Main).1 <==> Strip(raw) != [] && NoHeading(Strip(raw)) && IsPoint(Strip(raw))
  {
  }

  /** text-scrapper.py breaks exactly at a HYMN line that holds no earlier
      marker, whether or not a section has started. */
  lemma ScraperBreaksAtHymn(st: State, raw: string)
    ensures Step(st, raw, TextScraper).1 <==>
      Strip(raw) != [] && NoMarker(Strip(raw)) && Contains(Strip(raw), "HYMN")
  {
  }

  /** A blank line (all whitespace) changes nothing and does not end the
      scan. */
  lemma BlankLineSkipped(st: State, raw: string, script: Script)
    requires IsBlank(raw)
    ensures Step(st, raw, script) == (st, false)
  {
    StripEmpty(raw);
  }

  /** The line "ACTION KEY POINT:POINT" starts with neither ACTION POINT
      label (index 7 is the 'K' of KEY), and no other 'A' follows. */
  lemma NoActionLabelAtFront(a: string, k: string, t: string)
    requires a == "ACTION " && k == "KEY POINT:" && t == "POINT"
    ensures a + k + t != []
    ensures !StartsWith(a + k + t, "ACTION POINT:") && !StartsWith(a + k + t, "ACTION POINT")
    ensures 'A' !in (a + k + t)[1..]
  {
    var kt := k + t;
    var line := a + kt;
    assert a + k + t == line;
    assert line[7] == 'K';
    assert line[..13][7] == 'K' && line[..12][7] == 'K';
    assert line[1..] == a[1..] + kt;
    assert 'A' !in a[1..];
    assert 'A' !in kt;
  }

  /** Neither ACTION POINT label is found in "ACTION KEY POINT:POINT". */
  lemma NoActionLabel(a: string, k: string, t: string)
    requires a == "ACTION " && k == "KEY POINT:" && t == "POINT"
    ensures Replace(a + k + t, "ACTION POINT:", "") == a + k + t
    ensures Replace(a + k + t, "ACTION POINT", "") == a + k + t
  {
    NoActionLabelAtFront(a, k, t);
    ReplaceNotAtFront(a + k + t, "ACTION POINT:", "");
    ReplaceNotAtFront(a + k + t, "ACTION POINT", "");
  }

  /** Removing KEY POINT: from "ACTION KEY POINT:POINT" leaves
      "ACTION POINT". */
  lemma KeyLabelDeleted(a: string, k: string, t: string)
    requires a == "ACTION " && k == "KEY POINT:" && t == "POINT"
    ensures Replace(a + k + t, "KEY POINT:", "") == a + t
  {
    assert 'K' !in a && 'K' !in t;
    DeleteBetween(a, k, t);
  }

  /** main.py removes KEY POINT: after both ACTION POINT labels, so
      "ACTION KEY POINT:POINT" leaves "ACTION POINT". */
  lemma MainKeepsActionPoint(a: string, k: string, t: string)
    requires a == "ACTION " && k == "KEY POINT:" && t == "POINT"
    ensures ReflectionText(a + k + t, Main) == a + t
  {
    NoActionLabel(a, k, t);
    KeyLabelDeleted(a, k, t);
    var line, at := a + k + t, a + t;
    var s1 := Replace(line, "ACTION POINT:", "");
    var s2 := Replace(s1, "ACTION POINT", "");
    assert s2 == line;
    var s3 := Replace(s2, "KEY POINT:", "");
    assert s3 == at;
    assert at[0] == 'A' && at[|at| - 1] == 'T';
    assert 'K' !in at;
    ReplaceWithout(at, "KEY POINT", "");
    StripUnchanged(at);
  }

  /** text-scrapper.py removes KEY POINT: before the second ACTION POINT
      label, so "ACTION KEY POINT:POINT" leaves nothing. */
  lemma ScraperDropsActionPoint(a: string, k: string, t: string)
    requires a == "ACTION " && k == "KEY POINT:" && t == "POINT"
    ensures ReflectionText(a + k + t, TextScraper) == ""
  {
    NoActionLabel(a, k, t);
    KeyLabelDeleted(a, k, t);
    var line, at := a + k + t, a + t;
    var s1 := Replace(line, "ACTION POINT:", "");
    var s2 := Replace(s1, "KEY POINT:", "");
    assert s2 == at;
    assert at == "ACTION POINT";
    DeleteWhole(at);
    ReplaceWithout([], "KEY POINT", "");
    StripEmpty([]);
  }

  /** A heading line overwrites its section whatever it held, makes it
      current, and leaves the other sections and the kind alone. */
  lemma HeadingOverwrites(st: State, raw: string, script: Script)
    requires Strip(raw) != [] && Classify(Strip(raw), script).Heading?
    ensures var s := Classify(Strip(raw), script).section;
      var next := Step(st, raw, script);
      && !next.1
      && next.0.sections.Get(s) == Seed(s, Strip(raw), script)
      && next.0.current == Some(s) && next.0.kind == st.kind
      && forall t :: t != s ==> next.0.sections.Get(t) == st.sections.Get(t)
  {
  }

  /** Any other line is appended, after a newline, to the current section;
      before the first marker it is dropped. */
  lemma BodyAppends(st: State, raw: string, script: Script)
    requires Strip(raw) != [] && Classify(Strip(raw), script).Body?
    ensures var next := Step(st, raw, script);
      && !next.1
      && next.0.current == st.current && next.0.kind == st.kind
      && (st.current.None? ==> next.0 == st)
      && (st.current.Some? ==>
            var c := st.current.value;
            && next.0.sections.Get(c) == st.sections.Get(c) + "\n" + Strip(raw)
            && forall t :: t != c ==> next.0.sections.Get(t) == st.sections.Get(t))
  {
  }

  /** A reflection line sets REFLECTION to the line without its labels and
      the kind to 'Action Point' when the line says ACTION POINT, otherwise
      'Key Point'; only main.py stops there. */
  lemma PointSetsReflection(st: State, raw: string, script: Script)
    requires Strip(raw) != [] && Classify(Strip(raw), script).Point?
    ensures var next := Step(st, raw, script);
      && (next.1 <==> script == Main)
      && next.0.sections.reflection == ReflectionText(Strip(raw), script)
      && next.0.current == Some(Reflection)
      && (next.0.kind == ActionPoint <==> Contains(Strip(raw), "ACTION POINT"))
      && next.0.kind != Unset
  {
  }

  /** The markers are substrings, not words: a line saying BREAD (and not
      MEMORISE) starts the READ section. */
  lemma BreadIsRead(line: string, script: Script)
    requires Contains(line, "BREAD") && !Contains(line, "MEMORISE")
    ensures Classify(line, script) == Heading(Read)
  {
    assert "BREAD"[1..5] == "READ";
    OccursAtContains("BREAD", "READ", 1);
    ContainsTransitive(line, "BREAD", "READ");
  }

  /** Stripping a raw line cannot bring in a marker. */
  lemma NoMarkerStripped(raw: string)
    requires NoMarker(raw)
    ensures NoMarker(Strip(raw))
  {
    StripKeepsAbsence(raw, "MEMORISE");
    StripKeepsAbsence(raw, "READ");
    StripKeepsAbsence(raw, "BIBLE IN ONE YEAR");
    StripKeepsAbsence(raw, "MESSAGE");
    StripKeepsAbsence(raw, "ACTION POINT");
    StripKeepsAbsence(raw, "KEY POINT");
  }

  /** Lines without any marker change nothing from the start: all five
      sections stay empty and the kind stays unset. */
  lemma {:induction false} NoMarkersLeaveStart(lines: seq<string>, script: Script)
    requires forall i :: 0 <= i < |lines| ==> NoMarker(lines[i])
    ensures Run(lines, Start, script).0 == Start
    decreases |lines|
  {
    if lines != [] {
      NoMarkerStripped(lines[0]);
      assert Step(Start, lines[0], script).0 == Start;
      NoMarkersLeaveStart(lines[1..], script);
    }
  }

  /** A page text without any marker yields empty sections and no kind. */
  lemma NoMarkerText(text: string, script: Script)
    requires NoMarker(text)
    ensures Assembled(text, script) == Start
  {
    var lines := Split(text, '\n');
    SplitPartsInside(text, '\n');
    forall i | 0 <= i < |lines|
      ensures NoMarker(lines[i])
    {
      forall p | p in ["MEMORISE", "READ", "BIBLE IN ONE YEAR", "MESSAGE", "ACTION POINT", "KEY POINT"]
        ensures !Contains(lines[i], p)
      {
        if Contains(lines[i], p) {
          ContainsTransitive(text, lines[i], p);
        }
      }
    }
    NoMarkersLeaveStart(lines, script);
  }

  /** Lines without a reflection label never set the kind. */
  lemma {:induction false} NoPointKeepsKind(lines: seq<string>, st: State, script: Script)
    requires forall i :: 0 <= i < |lines| ==> !IsPoint(lines[i])
    ensures Run(lines, st, script).0.kind == st.kind
    decreases |lines|
  {
    if lines != [] {
      StripKeepsAbsence(lines[0], "ACTION POINT");
      StripKeepsAbsence(lines[0], "KEY POINT");
      var next := Step(st, lines[0], script);
      assert next.0.kind == st.kind;
      NoPointKeepsKind(lines[1..], next.0, script);
    }
  }

  /** In text-scrapper.py a MESSAGE line empties the section and drops the
      rest of the line, so the message body starts with a newline. */
  lemma ScraperMessageBody(st: State, heading: string, body: string)
    requires Strip(heading) != [] && Classify(Strip(heading), TextScraper) == Heading(Message)
    requires Strip(body) != [] && Classify(Strip(body), TextScraper).Body?
    ensures Run([heading, body], st, TextScraper).0.sections.message == "\n" + Strip(body)
  {
    var first := Step(st, heading, TextScraper);
    assert first.0.sections.message == "" && first.0.current == Some(Message);
    assert [heading, body][1..] == [body];
    assert Run([body], first.0, TextScraper) == Step(first.0, body, TextScraper);
  }

  /** In main.py a MESSAGE line keeps what follows the bare word MESSAGE,
      colon included. */
  lemma MainMessageKeepsRest(rest: string)
    requires !Contains(rest, "MESSAGE")
    ensures Seed(Message, "MESSAGE" + rest, Main) == Strip(rest)
  {
    var line := "MESSAGE" + rest;
    assert StartsWith(line, "MESSAGE") by {
      assert line[..7] == "MESSAGE";
    }
    assert line[7..] == rest;
    ReplaceAbsent(rest, "MESSAGE", "");
    assert Replace(line, "MESSAGE", "") == "" + Replace(rest, "MESSAGE", "");
    assert Replace(line, "MESSAGE", "") == rest;
    assert Seed(Message, line, Main) == Strip(Replace(line, "MESSAGE", ""));
  }
}
