# Open Heavens devotional scripts, modelled in Dafny

Two Python scripts fetch the day's Open Heavens devotional. Both are modelled here: `open-heavens/main.py` and `open-heavens/text-scrapper.py`. Each script does the following:

- finds the article and its title on the page;
- cuts the topic out of the title;
- sorts the article's lines into five sections (MEMORISE, READ, BIBLE IN ONE YEAR, MESSAGE, REFLECTION);
- fills a fixed text template and saves it as `devotional_output.txt`;
- posts the text to a Discord webhook in messages of at most about 2000 characters.

`main.py` also turns the text into speech with gTTS and uploads the MP3 file. Any exception replaces the saved file with `Error: <message>`, and the function returns False.

The model has seven modules:

- `Outcomes` (`outcomes.dfy`): `Option`, `Outcome` (pass or failure with a message) and `Result`.
- `PyStr` (`pystr.dfy`): the Python `str` operations the scripts use.
  - `isspace`/`strip()`, `in`, `replace` (every non-overlapping occurrence, from the left), `split('\n')` and `join`.
  - Lemmas about each of them.
- `Chunker` (`chunker.dfy`): how `send_to_discord` cuts a text into messages. It is a function of the text and the hard-cut index, so the code as written (`split_point = max_length`) and the intended cut can both be analysed.
- `Delivery` (`delivery.dfy`): the `send_to_discord` loop as a method.
  - The webhook is a value that decides, per payload, whether `raise_for_status()` passes and what it raises otherwise.
  - The method returns every POST it made.
- `Sections` (`sections.dfy`): the section loop.
  - `ProcessLine` is the loop body and `AssembleSections` is the `for` loop with its `break`. Both are proved against the functions `Step` and `Run`.
  - A `Script` parameter selects the behaviour of `main.py` or `text-scrapper.py`.
- `Document` (`document.dfy`): the topic regex `^.*? <separator> ` and the two output templates, with their line layout.
- `Pipeline` (`pipeline.dfy`): `scrape_latest_open_heavens` as a method, proved equal to the pure `Scrape` function of what the outside world does. The outside world is:
  - the fetched page or the fetch error;
  - the webhook's verdicts;
  - the gTTS outcome.

Three behaviours of the code are worth stating outright, because a reader might expect otherwise:

- The topic pattern matches only its one literal separator. For `text-scrapper.py` that separator is space, en dash (U+2013), space. A title written with an em dash, or with any other dash, does not match and is kept whole (`Document.TopicWithoutSeparator`).
- `main.py` always prints the `REFLECTION (...)` block, with an empty label when no reflection line was seen. Only `text-scrapper.py` omits the block in that case (`Document.MainLayout`, `Document.ScraperLayout`).
- A failed send is not rolled back. Messages posted before the failing one stay posted. `Delivery.SendToDiscord` and `Pipeline.RejectedMessageStopsRun` state this.

The two Findings below are modelled in two halves each. A `Pipeline.Revision` parameter chooses which half a run uses:

- `AsWritten` runs with the code's constants. The hard cut is `Chunker.HardCut` (`max_length`), and `main.py`'s topic separator is `Document.MainSeparator`, its mis-decoded literal.
- `Corrected` runs with the intended constants: `Chunker.IntendedHardCut` and `Document.EnDash`.
- `Delivery.NextMessage` and `Delivery.SendToDiscord` take the hard cut as a parameter. `Pipeline.Cut` and `Pipeline.Separator` give each revision's constants.

## Model

| member | source | states |
|---|---|---|
| PyStr.Strip | open-heavens/main.py:26-27 | `strip()` never lengthens a string |
| PyStr.StripFacts | open-heavens/main.py:26-27 | the strip is the slice after the leading whitespace; only whitespace is cut at either end; a non-empty strip starts and ends with a non-whitespace character; the strip is empty exactly when the string is all whitespace |
| PyStr.RemoveWhitespaceStrip | open-heavens/main.py:26-27 | `strip()` loses only whitespace |
| PyStr.StripKeepsAbsence | open-heavens/main.py:93-97 | stripping a line cannot bring in a marker the raw line did not hold |
| PyStr.ContainsTransitive | open-heavens/main.py:97-100 | `in` is transitive: a line containing "BREAD" contains everything "BREAD" contains |
| PyStr.ReplaceLength | open-heavens/main.py:99 | `replace` changes the length by (len(new) - len(old)) for each occurrence it counts |
| PyStr.ReplaceAbsent | open-heavens/main.py:99 | replacing a label that does not occur leaves the line unchanged |
| PyStr.Split | open-heavens/main.py:89 | `split('\n')` yields at least one line and no line holds a line break |
| PyStr.JoinSplit | open-heavens/main.py:89 | joining the lines with '\n' gives back the text |
| PyStr.SplitJoin | open-heavens/main.py:89 | splitting a join of break-free lines gives back those lines |
| PyStr.SplitPartsInside | open-heavens/main.py:89 | every line of the split is an infix of the text, the first a prefix |
| Chunker.RFind | open-heavens/main.py:19-20 | `rfind('.')` is -1 exactly when there is no full stop, otherwise the index of the last one |
| Chunker.Remainder | open-heavens/main.py:27 | each round leaves strictly less text, so the loop ends |
| Chunker.MessagesEmpty | open-heavens/main.py:16 | an empty text sends no message, a non-empty one at least one |
| Chunker.ShortTextIsOneMessage | open-heavens/main.py:18-27 | a text of 1 to 2000 characters goes out as the single message `strip(content)` |
| Chunker.LongTextCutAtLastStop | open-heavens/main.py:18-27 | a longer text with a full stop in its first 2000 characters is cut just after the last one; the message ends with that full stop and has at most 2000 characters |
| Chunker.LongTextHardCut | open-heavens/main.py:18-27 | a longer text without such a full stop is cut after index `hardCut`: the message is `strip(content[:hardCut + 1])` |
| Chunker.MessagesBounded | open-heavens/main.py:14-27 | every message is within the bound of the chosen hard cut |
| Chunker.AsWrittenBound | open-heavens/main.py:21-26 | as written, every message has at most 2001 characters |
| Chunker.OverlongHardCut | open-heavens/main.py:10-26 | as written, 2001 characters without a full stop go out as one 2001-character message |
| Chunker.IntendedHardCutWithinLimit | open-heavens/main.py:10 | with the cut at index 1999, every message has at most 2000 characters |
| Chunker.IntendedHardCutSplits | open-heavens/main.py:10 | with the cut at index 1999, the same 2001 characters go out as 2000 and 1 |
| Chunker.FirstMessageNonEmpty | open-heavens/main.py:26 | a text that starts with a non-whitespace character gives a non-empty first message |
| Chunker.RemainderStart | open-heavens/main.py:27 | what is left after a round starts with a non-whitespace character |
| Chunker.LaterMessagesNonEmpty | open-heavens/main.py:16-27 | no message after the first is empty |
| Chunker.OneRound | open-heavens/main.py:26-27 | one round splits the text into message and remainder with only whitespace around them |
| Chunker.MessagesTile | open-heavens/main.py:16-27 | the messages are consecutive, non-overlapping pieces of the text, in order, with only whitespace between them |
| Chunker.MessagesKeepText | open-heavens/main.py:16-27 | deleting all whitespace from the text equals deleting it from the concatenated messages |
| Delivery.TextsIndex | open-heavens/text-scrapper.py:26-27 | one text payload per message, in order |
| Delivery.Delivered | open-heavens/text-scrapper.py:12-28 | the messages before index k are accepted and the one at k, if any, is rejected |
| Delivery.Attempted | open-heavens/text-scrapper.py:12-28 | the POSTs made are a prefix of the messages; all but the last are accepted, and the posting stops early only after a rejection |
| Delivery.DeliveredAfter | open-heavens/text-scrapper.py:12-28 | messages already accepted add to the count delivered |
| Delivery.FirstRejected | open-heavens/text-scrapper.py:28 | a rejected message after accepted ones is the last POST made |
| Delivery.AllAccepted | open-heavens/text-scrapper.py:12-28 | when every message is accepted, all are delivered and posted |
| Delivery.Advance | open-heavens/main.py:16-31 | each round posts its message; an accepted message joins those already sent; a rejected one is the first rejection of the whole sequence |
| Delivery.Finished | open-heavens/main.py:16 | when the loop ends with nothing left, every message was accepted and posted |
| Delivery.PostsWithinBound | open-heavens/main.py:10-31 | every text the loop posts is within the bound of the hard cut it uses |
| Delivery.NextMessage | open-heavens/main.py:18-27 | one loop round computes exactly the message and the remaining content of the chunking functions, for the given hard cut |
| Delivery.SendToDiscord | open-heavens/main.py:13-31 | the posts made are the messages, in order, up to and including the first rejected one; the outcome is that rejection's error, or a pass when every message is accepted |
| Sections.SectionTexts.Set | open-heavens/main.py:99 | writing one key sets it and leaves every other key unchanged |
| Sections.KindLabel | open-heavens/main.py:88-110 | the reflection label is empty exactly when no reflection line was seen |
| Sections.Classify | open-heavens/main.py:97-116 | the first marker in the order MEMORISE, READ, BIBLE IN ONE YEAR, MESSAGE decides a heading; a reflection line holds none of those; HYMN ends the scan only in text-scrapper.py and only without an earlier marker; every other line is body text |
| Sections.ProcessLine | open-heavens/main.py:93-116 | one pass of the loop body gives the state and the break decision of `Step` |
| Sections.AssembleSections | open-heavens/text-scrapper.py:75-104 | the loop leaves the sections and the kind given by `Run` over all the lines, stopping at the first break |
| Sections.LaterLinesIgnored | open-heavens/main.py:114 | once the loop breaks, lines after it change nothing |
| Sections.MainBreaksAtPoint | open-heavens/main.py:109-114 | main.py breaks exactly at a non-blank line holding a reflection label and no heading marker |
| Sections.ScraperBreaksAtHymn | open-heavens/text-scrapper.py:84-102 | text-scrapper.py breaks exactly at a non-blank HYMN line holding no earlier marker, whether or not a section is current |
| Sections.HeadingOverwrites | open-heavens/main.py:97-108 | a heading line overwrites its section with the line without its label, makes it current, and leaves the other sections and the kind alone |
| Sections.BodyAppends | open-heavens/main.py:115-116 | any other line is appended as `'\n' + line` to the current section, and dropped before the first marker |
| Sections.PointSetsReflection | open-heavens/text-scrapper.py:96-100 | a reflection line sets REFLECTION and the kind ('Action Point' exactly when the line says ACTION POINT); only main.py stops there |
| Sections.BreadIsRead | open-heavens/main.py:100-102 | markers are substrings: a line saying BREAD (and not MEMORISE) starts READ |
| Sections.NoMarkerStripped | open-heavens/main.py:93 | stripping a line cannot create a marker |
| Sections.NoMarkersLeaveStart | open-heavens/main.py:86-116 | lines without any marker leave every section empty and the kind unset |
| Sections.NoMarkerText | open-heavens/main.py:86-116 | a page text without any marker yields five empty sections and no kind |
| Sections.NoPointKeepsKind | open-heavens/text-scrapper.py:76-97 | lines without a reflection label never change the kind |
| Sections.ScraperMessageBody | open-heavens/text-scrapper.py:93-104 | in text-scrapper.py a MESSAGE line empties MESSAGE, so the body that follows starts with a line break |
| Sections.BlankLineSkipped | open-heavens/main.py:92-94 | a blank line changes nothing and does not end the scan |
| Sections.MainKeepsActionPoint | open-heavens/main.py:112 | main.py removes both ACTION POINT labels before KEY POINT:, so on the line "ACTION KEY POINT:POINT" the "ACTION POINT" that removing KEY POINT: joins up is kept |
| Sections.ScraperDropsActionPoint | open-heavens/text-scrapper.py:99 | text-scrapper.py removes KEY POINT: before plain ACTION POINT, so on the same line the joined "ACTION POINT" is removed too and nothing is left |
| Sections.MainMessageKeepsRest | open-heavens/main.py:106-108 | in main.py a MESSAGE line keeps the rest of the line after the bare word MESSAGE, colon included |
| Document.MatchEnd | open-heavens/main.py:79 | a match of the lazy prefix ends right after an occurrence of the separator |
| Document.Topic | open-heavens/text-scrapper.py:60 | the topic is never longer than the title |
| Document.TopicIsSuffix | open-heavens/text-scrapper.py:60 | the topic is a suffix of the title |
| Document.TopicAfterFirstSeparator | open-heavens/text-scrapper.py:60 | when the first separator comes before any line break, the topic is everything after it |
| Document.TopicUnmatched | open-heavens/text-scrapper.py:60 | when no separator starts before the first line break, the title is kept whole |
| Document.TopicWithoutSeparator | open-heavens/text-scrapper.py:60 | a title without the separator is returned unchanged |
| Document.MainTopicKeepsEnDashTitle | open-heavens/main.py:79 | as written, main.py keeps a title made with a real en dash whole, prefix included |
| Document.EnDashTopic | open-heavens/text-scrapper.py:60 | with the en dash separator the text before the first " – " on the first line is removed |
| Document.SplitAppend | open-heavens/main.py:120 | a line break in the document splits its lines into those before and those after |
| Document.ParagraphBreak | open-heavens/main.py:120 | a blank line between two paragraphs becomes one empty line between their lines |
| Document.HeadLayout | open-heavens/main.py:120 | the document's lines are DATE, TOPIC, MEMORISE in quotes, READ, BIBLE IN ONE YEAR, the MESSAGE header and the message text, in that order, with a blank line between them |
| Document.ReflectionLayout | open-heavens/main.py:120 | the reflection block is the `REFLECTION (<kind>)` line, the reflection's lines and a final empty line |
| Document.MainLayout | open-heavens/main.py:119-120 | main.py's document is the head, a blank line and the reflection block, present even when the label is empty |
| Document.ScraperLayout | open-heavens/text-scrapper.py:107-116 | text-scrapper.py's document has the reflection block exactly when a trigger was seen |
| Document.FormatsAgree | open-heavens/main.py:120 | main.py's document always contains `REFLECTION (<kind>)\n`; the two documents are equal when a trigger was seen, and otherwise differ only by that block |
| Pipeline.ExtractionErrors | open-heavens/text-scrapper.py:49-56 | a missing article raises its message; a found article without a title raises the title message; otherwise extraction succeeds |
| Pipeline.Cut | open-heavens/main.py:10-21 | the hard cut as written lets a message reach 2001 characters; the corrected one keeps it within 2000 |
| Pipeline.PublishDevotional | open-heavens/main.py:123-135 | saving, posting with the revision's hard cut, speech and upload produce exactly `Publish` (result, file and POSTs) |
| Pipeline.ScrapeLatestOpenHeavens | open-heavens/main.py:50-140 | the whole run, with the revision's separator and hard cut, produces exactly `Scrape` (result, file and POSTs) |
| Pipeline.PublishArtifact | open-heavens/main.py:123-140 | once the document is built, the file holds the document after a True run; after a False one it holds "Error: " followed by the first rejected message's error, or else by gTTS's error, or else by the audio upload's error |
| Pipeline.ArtifactRule | open-heavens/text-scrapper.py:119-131 | a True run leaves the extracted document in the file; any other run leaves "Error: " and the exception's text, which for a failed fetch or extraction is exactly that error |
| Pipeline.PublishSucceeds | open-heavens/main.py:128-135 | after extraction the run succeeds exactly when every message is accepted and, in main.py, the audio is made and accepted |
| Pipeline.SuccessCondition | open-heavens/main.py:50-140 | the run succeeds exactly when the fetch and the extraction succeed, every message is accepted and, in main.py, the audio is made and accepted |
| Pipeline.ExtractionFailurePostsNothing | open-heavens/main.py:63-76 | a failed fetch or extraction posts nothing and saves exactly that error; for a fetched page the error is one of the two ValueError messages |
| Pipeline.MissingArticleArtifact | open-heavens/main.py:69-139 | a page with no article and no `div.post` leaves "Error: Could not find the latest devotional article" |
| Pipeline.PublishPosts | open-heavens/main.py:128-133 | a run posts the text messages up to the first rejected one, followed by at most the audio file |
| Pipeline.PostsFitLimit | open-heavens/main.py:10-31 | every text a run posts has at most 2000 characters with the corrected cut, and at most 2001 as written |
| Pipeline.SuccessPostsEverything | open-heavens/main.py:128-133 | a successful run has posted every message in order, then in main.py the audio file |
| Pipeline.RejectedMessageStopsRun | open-heavens/text-scrapper.py:26-131 | a rejected message fails the run; the POSTs stop at it and main.py makes no audio upload |

## Left out

- The HTTP fetch and `raise_for_status()` of the page: the fetched page, or the text of the exception, is a parameter.
- BeautifulSoup: the page is given as the texts of its first `article` or `div.post`, of their first `h2`/`h1`/`h3`, and of their `div.entry-content`. `get_text` is not modelled.
- gTTS (`convert_text_to_audio`): its success or failure message is a parameter.
- `load_dotenv` and `os.getenv`: the webhook is a parameter and the URL is not modelled.
- `datetime.now().strftime(...)`: the date string is a parameter.
- File writes: the artifact is the text the file would hold at the end of the run. Write errors, the audio file's bytes and the `open(file_path, "rb")` in `send_audio_to_discord` are not modelled.
- Delivery.Webhook: the webhook's answer is a fixed function of the payload. Network state, timeouts and retries are not modelled, and the scripts have none.
- Delivery.SendToDiscord: the POSTs are returned as a sequence rather than recorded in a mutable log object, so aliasing of a shared webhook is not modelled.
- Python `str.isspace` is modelled over its exact character set. Strings are sequences of code points. Unicode normalisation and case are not involved.
- Regular expressions in general: only the one anchored lazy pattern `^.*? <separator> ` used by both scripts is modelled.
- The spoofed User-Agent header is not modelled; it only affects the remote server.

## Findings

| source | as written | input that shows it | evidently intended | confidence | as-written member | corrected member |
|---|---|---|---|---|---|---|
| open-heavens/main.py:21,26 and open-heavens/text-scrapper.py:17,22 | with no full stop in the first 2000 characters, `split_point = max_length` and the message is `content[:split_point + 1]`, 2001 characters | 2001 × 'a' is posted as one 2001-character message, over Discord's 2000 limit and against the comment at main.py:10 | cut at index 1999, so every message has at most 2000 characters | not executed; follows from the slice bounds | Chunker.OverlongHardCut | Chunker.IntendedHardCutWithinLimit |
| open-heavens/main.py:79 | the separator literal is " â€“ " (U+00E2 U+20AC U+201C), an en dash's UTF-8 bytes read as Windows-1252 | a title "Day – Topic" with a real en dash is kept whole, so TOPIC repeats the prefix | the en dash separator " – " as in text-scrapper.py:60, which removes the prefix | not executed; depends on the page being decoded correctly | Document.MainTopicKeepsEnDashTitle | Document.EnDashTopic |

`Chunker.HardCut` (2000) and `Document.MainSeparator` are the constants as written. `Chunker.IntendedHardCut` (1999) and `Document.EnDash` are the corrected constants. `Pipeline.ScrapeLatestOpenHeavens` and `Pipeline.PublishDevotional` run with either pair, chosen by `Pipeline.Revision`; `Pipeline.PostsFitLimit` states the bound each pair gives.
