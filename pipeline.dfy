/** `scrape_latest_open_heavens` (open-heavens/main.py and
    open-heavens/text-scrapper.py): fetch the page, find the devotional, build
    the document, save it, post it to Discord (and, in main.py, its audio),
    and on any exception save "Error: <message>" instead and return False. */
module Pipeline {
  import opened Outcomes
  import opened PyStr
  import opened Chunker
  import opened Sections
  import opened Document
  import opened Delivery

  /** An element BeautifulSoup found in the devotional: the text of its first
      `h2`, `h1` and `h3` (`get_text(strip=True)`), the text of its first
      `div.entry-content` and its own text (`get_text('\n', strip=True)`). */
  datatype Article = Article(
    h2: Option<string>, h1: Option<string>, h3: Option<string>,
    entryContent: Option<string>, text: string)

  /** The parsed page: its first `article` and its first `div.post`. */
  datatype Page = Page(article: Option<Article>, post: Option<Article>)

  const ArticleMissing := "Could not find the latest devotional article"
  const TitleMissing := "Could not find devotional title"

  /** The file `send_audio_to_discord` uploads in main.py. */
  const AudioFile := "devotional_audio.mp3"

  /** Which constants a run uses: the scripts' own (`max_length` as the hard
      cut, main.py's mis-decoded separator) or the corrected ones. */
  datatype Revision = AsWritten | Corrected

  /** The split point `send_to_discord` takes when there is no full stop. */
  function Cut(rev: Revision): (n: nat)
    ensures Bound(n) == if rev == AsWritten then MaxLength + 1 else MaxLength
  {
    if rev == AsWritten then HardCut else IntendedHardCut
  }

  /** The separator in the topic pattern: main.py's literal as written, the
      en dash otherwise. */
  function Separator(script: Script, rev: Revision): string
  {
    if script == Main && rev == AsWritten then MainSeparator else EnDash
  }

  /** `soup.find('article') or soup.find('div', class_='post')` */
  function LatestArticle(page: Page): Option<Article>
  {
    if page.article.Some? then page.article else page.post
  }

  /** `find('h2') or find('h1') or find('h3')`, as text. */
  function TitleText(a: Article): Option<string>
  {
    if a.h2.Some? then a.h2 else if a.h1.Some? then a.h1 else a.h3
  }

  /** The text the section loop reads: the entry content, or the whole
      article when there is none. */
  function ContentText(a: Article): string
  {
    if a.entryContent.Some? then a.entryContent.value else a.text
  }

  /** The document the script builds from a fetched page, or the message of
      the ValueError it raises. */
  function Devotional(script: Script, rev: Revision, date: string, page: Page): Result<string>
  {
    match LatestArticle(page)
    case None => Err(ArticleMissing)
    case Some(a) =>
      match TitleText(a)
      case None => Err(TitleMissing)
      case Some(title) =>
        var st := Assembled(ContentText(a), script);
        Ok(Format(script, date, Topic(title, Separator(script, rev)), st.sections, st.kind))
  }

  /** Which ValueError the extraction raises: a missing article first, then a
      missing title; with both present it succeeds. */
  lemma ExtractionErrors(script: Script, rev: Revision, date: string, page: Page)
    ensures Devotional(script, rev, date, page) == Err(ArticleMissing)
      <==> page.article.None? && page.post.None?
    ensures Devotional(script, rev, date, page) == Err(TitleMissing)
      <==> LatestArticle(page).Some? && TitleText(LatestArticle(page).value).None?
    ensures Devotional(script, rev, date, page).Ok?
      <==> LatestArticle(page).Some? && TitleText(LatestArticle(page).value).Some?
  {
  }

  /** What one run of the script leaves behind: whether it returned True,
      the text of devotional_output.txt, and every POST made to the webhook. */
  datatype RunResult = RunResult(success: bool, artifact: string, posted: seq<Payload>)

  /** The fetch (`requests.get` and `raise_for_status`, whose exception text
      is given) followed by the extraction. */
  function Extract(script: Script, rev: Revision, date: string, fetched: Result<Page>): Result<string>
  {
    match fetched
    case Err(e) => Err(e)
    case Ok(page) => Devotional(script, rev, date, page)
  }

  /** The rest of the `try` block once the document `doc` is built: save it,
      post it, and in main.py make the audio with gTTS (whose outcome is
      given) and upload it. The first step that raises ends the run. */
  function Publish(script: Script, rev: Revision, doc: string, hook: Webhook, synthesis: Outcome): RunResult
  {
    var ms := Messages(doc, Cut(rev));
    var k := Delivered(ms, hook.accepts);
    var texts := Texts(Attempted(ms, hook.accepts));
    if k < |ms| then RunResult(false, "Error: " + hook.rejection(Text(ms[k])), texts)
    else if script == TextScraper then RunResult(true, doc, texts)
    else if synthesis.Fail? then RunResult(false, "Error: " + synthesis.error, texts)
    else if !hook.accepts(Audio(AudioFile)) then
      RunResult(false, "Error: " + hook.rejection(Audio(AudioFile)), texts + [Audio(AudioFile)])
    else RunResult(true, doc, texts + [Audio(AudioFile)])
  }

  /** The whole run as a function of what the outside world does: the
      fetched page or the fetch's exception, the webhook's verdicts, and
      whether gTTS succeeds (main.py only). */
  function Scrape(script: Script, rev: Revision, date: string, fetched: Result<Page>, hook: Webhook, synthesis: Outcome): RunResult
  {
    match Extract(script, rev, date, fetched)
    case Err(e) => RunResult(false, "Error: " + e, [])
    case Ok(doc) => Publish(script, rev, doc, hook, synthesis)
  }

  /** The end of the `try` block, from saving the document on: post it,
      then in main.py make the audio and upload it. */
  method PublishDevotional(script: Script, rev: Revision, output: string, hook: Webhook, synthesis: Outcome)
    returns (success: bool, artifact: string, posted: seq<Payload>)
    ensures RunResult(success, artifact, posted) == Publish(script, rev, output, hook, synthesis)
  {
    artifact := output;
    var sent;
    sent, posted := SendToDiscord(hook, output, Cut(rev));
    if sent.Fail? {
      return false, "Error: " + sent.error, posted;
    }
    if script == Main {
      if synthesis.Fail? {
        return false, "Error: " + synthesis.error, posted;
      }
      var uploaded := hook.Post(Audio(AudioFile));
      posted := posted + [Audio(AudioFile)];
      if uploaded.Fail? {
        return false, "Error: " + uploaded.error, posted;
      }
    }
    success := true;
  }

  /** `scrape_latest_open_heavens()`: the steps of the `try` block in order;
      the first that raises ends it, and the `except` branch overwrites the
      output file with "Error: " and the exception's text. */
  method ScrapeLatestOpenHeavens(script: Script, rev: Revision, date: string, fetched: Result<Page>, hook: Webhook, synthesis: Outcome)
    returns (success: bool, artifact: string, posted: seq<Payload>)
    ensures RunResult(success, artifact, posted) == Scrape(script, rev, date, fetched, hook, synthesis)
  {
    if fetched.Err? {
      return false, "Error: " + fetched.error, [];
    }
    var latest := LatestArticle(fetched.value);
    if latest.None? {
      return false, "Error: " + ArticleMissing, [];
    }
    var title := TitleText(latest.value);
    if title.None? {
      return false, "Error: " + TitleMissing, [];
    }
    var topic := Topic(title.value, Separator(script, rev));
    var sections, kind := AssembleSections(ContentText(latest.value), script);
    var output := Format(script, date, topic, sections, kind);
    assert Extract(script, rev, date, fetched) == Ok(output);
    success, artifact, posted := PublishDevotional(script, rev, output, hook, synthesis);
  }

  /** After the document is built, a run either returns True with the
      document in the file, or leaves "Error: " and the text of the first
      exception: the webhook's answer to the first rejected message, gTTS's
      error, or the webhook's answer to the audio upload. */
  lemma PublishArtifact(script: Script, rev: Revision, doc: string, hook: Webhook, synthesis: Outcome)
    ensures var r := Publish(script, rev, doc, hook, synthesis);
      && (r.success ==> r.artifact == doc)
      && (!r.success ==> StartsWith(r.artifact, "Error: "))
    ensures var r := Publish(script, rev, doc, hook, synthesis);
      var ms := Messages(doc, Cut(rev));
      && (!AcceptedAll(ms, hook.accepts) ==>
            r.artifact == "Error: " + hook.rejection(Text(ms[Delivered(ms, hook.accepts)])))
      && (AcceptedAll(ms, hook.accepts) && script == Main && synthesis.Fail? ==>
            r.artifact == "Error: " + synthesis.error)
      && (AcceptedAll(ms, hook.accepts) && script == Main && synthesis.Pass? && !hook.accepts(Audio(AudioFile)) ==>
            r.artifact == "Error: " + hook.rejection(Audio(AudioFile)))
  {
    var r := Publish(script, rev, doc, hook, synthesis);
    var ms := Messages(doc, Cut(rev));
    if AcceptedAll(ms, hook.accepts) {
      AllAccepted(ms, hook.accepts);
    } else {
      var i :| 0 <= i < |ms| && !hook.accepts(Text(ms[i]));
    }
    if !r.success {
      var e := r.artifact[7..];
      assert r.artifact == "Error: " + e;
      assert r.artifact[..7] == "Error: ";
    }
  }

  /** The artifact rule: a run that returns True leaves the document in the
      file; any other run leaves "Error: " followed by the exception's text,
      which for a failed fetch or extraction is that error (and for a later
      step is given by `PublishArtifact`). */
  lemma ArtifactRule(script: Script, rev: Revision, date: string, fetched: Result<Page>, hook: Webhook, synthesis: Outcome)
    ensures var r := Scrape(script, rev, date, fetched, hook, synthesis);
      && (r.success ==> Extract(script, rev, date, fetched).Ok?
                        && r.artifact == Extract(script, rev, date, fetched).value)
      && (!r.success ==> StartsWith(r.artifact, "Error: "))
    ensures Extract(script, rev, date, fetched).Err? ==>
      Scrape(script, rev, date, fetched, hook, synthesis).artifact == "Error: " + Extract(script, rev, date, fetched).error
  {
    match Extract(script, rev, date, fetched)
    case Err(e) =>
      assert ("Error: " + e)[..7] == "Error: ";
    case Ok(doc) =>
      PublishArtifact(script, rev, doc, hook, synthesis);
  }

  /** What a run posts after the document is built: the text messages up to
      the first rejected one, then possibly the audio file. */
  lemma PublishPosts(script: Script, rev: Revision, doc: string, hook: Webhook, synthesis: Outcome)
    ensures var texts := Texts(Attempted(Messages(doc, Cut(rev)), hook.accepts));
      var posted := Publish(script, rev, doc, hook, synthesis).posted;
      posted == texts || posted == texts + [Audio(AudioFile)]
  {
    var ms := Messages(doc, Cut(rev));
    var texts := Texts(Attempted(ms, hook.accepts));
    var r := Publish(script, rev, doc, hook, synthesis);
    if Delivered(ms, hook.accepts) < |ms| || script == TextScraper || synthesis.Fail? {
      assert r.posted == texts;
    } else {
      assert r.posted == texts + [Audio(AudioFile)];
    }
  }

  /** Every text a run posts fits Discord's limit with the corrected cut, and
      is at most one character over it as written. */
  lemma PostsFitLimit(script: Script, rev: Revision, doc: string, hook: Webhook, synthesis: Outcome)
    ensures forall i :: 0 <= i < |Publish(script, rev, doc, hook, synthesis).posted| ==>
      var p := Publish(script, rev, doc, hook, synthesis).posted[i];
      p.Text? ==> |p.content| <= if rev == Corrected then MaxLength else MaxLength + 1
  {
    var n := Cut(rev);
    var texts := Texts(Attempted(Messages(doc, n), hook.accepts));
    PostsWithinBound(doc, n, hook.accepts);
    PublishPosts(script, rev, doc, hook, synthesis);
    var posted := Publish(script, rev, doc, hook, synthesis).posted;
    forall i | 0 <= i < |posted|
      ensures posted[i].Text? ==> |posted[i].content| <= Bound(n)
    {
      if i < |texts| {
        assert posted[i] == texts[i];
      } else {
        assert posted[i] == Audio(AudioFile);
      }
    }
  }

  /** Once the document is built, the run succeeds exactly when the webhook
      takes every message and, in main.py, the audio is made and taken too. */
  lemma PublishSucceeds(script: Script, rev: Revision, doc: string, hook: Webhook, synthesis: Outcome)
    ensures Publish(script, rev, doc, hook, synthesis).success
      <==> && AcceptedAll(Messages(doc, Cut(rev)), hook.accepts)
           && (script == Main ==> synthesis.Pass? && hook.accepts(Audio(AudioFile)))
  {
    var ms := Messages(doc, Cut(rev));
    if AcceptedAll(ms, hook.accepts) {
      AllAccepted(ms, hook.accepts);
    }
  }

  /** A run succeeds exactly when the page is fetched, the devotional is
      found, the webhook takes every message, and, in main.py, the audio is
      made and taken too. */
  lemma SuccessCondition(script: Script, rev: Revision, date: string, fetched: Result<Page>, hook: Webhook, synthesis: Outcome)
    ensures Scrape(script, rev, date, fetched, hook, synthesis).success
      <==> && Extract(script, rev, date, fetched).Ok?
           && AcceptedAll(Messages(Extract(script, rev, date, fetched).value, Cut(rev)), hook.accepts)
           && (script == Main ==> synthesis.Pass? && hook.accepts(Audio(AudioFile)))
  {
    if Extract(script, rev, date, fetched).Ok? {
      PublishSucceeds(script, rev, Extract(script, rev, date, fetched).value, hook, synthesis);
    }
  }

  /** A failed fetch, or a missing article or title, raises before anything
      is posted, and the file holds exactly that error. */
  lemma ExtractionFailurePostsNothing(script: Script, rev: Revision, date: string, fetched: Result<Page>, hook: Webhook, synthesis: Outcome)
    requires Extract(script, rev, date, fetched).Err?
    ensures var r := Scrape(script, rev, date, fetched, hook, synthesis);
      && !r.success && r.posted == []
      && r.artifact == "Error: " + Extract(script, rev, date, fetched).error
    ensures fetched.Ok? ==> Extract(script, rev, date, fetched).error in {ArticleMissing, TitleMissing}
  {
  }

  /** On a page with neither an `article` nor a `div.post`, the file says so. */
  lemma MissingArticleArtifact(script: Script, rev: Revision, date: string, hook: Webhook, synthesis: Outcome)
    ensures Scrape(script, rev, date, Ok(Page(None, None)), hook, synthesis).artifact
      == "Error: " + ArticleMissing
  {
    assert Devotional(script, rev, date, Page(None, None)) == Err(ArticleMissing);
  }

  /** A successful run has posted the whole document, message by message in
      order, and, in main.py, the audio file after it. */
  lemma SuccessPostsEverything(script: Script, rev: Revision, doc: string, hook: Webhook, synthesis: Outcome)
    requires Publish(script, rev, doc, hook, synthesis).success
    ensures Publish(script, rev, doc, hook, synthesis).posted
      == Texts(Messages(doc, Cut(rev))) + (if script == Main then [Audio(AudioFile)] else [])
  {
  }

  /** A failed text post stops the run: nothing after the rejected message
      is posted, and main.py makes no audio upload. */
  lemma RejectedMessageStopsRun(script: Script, rev: Revision, doc: string, hook: Webhook, synthesis: Outcome)
    requires !AcceptedAll(Messages(doc, Cut(rev)), hook.accepts)
    ensures var r := Publish(script, rev, doc, hook, synthesis);
      && !r.success
      && Audio(AudioFile) !in r.posted
      && |r.posted| == Delivered(Messages(doc, Cut(rev)), hook.accepts) + 1
  {
    var ms := Messages(doc, Cut(rev));
    var k := Delivered(ms, hook.accepts);
    var i :| 0 <= i < |ms| && !hook.accepts(Text(ms[i]));
    assert k < |ms|;
    TextsIndex(Attempted(ms, hook.accepts));
  }
}
