/** The weekly digest function (supabase/functions/send-digest/index.ts): the
    summary of a save, the plain-text email, and the per-user loop of a run, which
    skips users who were sent a digest recently or have nothing to read and records
    one result per user. The database, the e-mail service, the clock's locale
    formatting and the random shuffle are parameters. */
module SendDigest {
  import opened Base
  import opened Strs
  import opened Seqs
  import opened Rewrite

  // ---------------------------------------------------------------- summary

  predicate IsSentenceEnd(c: char)
  {
    c == '.' || c == '!' || c == '?'
  }

  predicate NoSentenceEnd(s: string)
  {
    forall j :: 0 <= j < |s| ==> !IsSentenceEnd(s[j])
  }

  predicate NotSentenceEnd(c: char)
  {
    !IsSentenceEnd(c)
  }

  /** `text.split(/[.!?]+/)`: the pieces between maximal runs of `.`, `!` and `?`;
      a run at either end yields an empty piece there. */
  function SplitSentences(s: string): (r: seq<string>)
    decreases |s|
    ensures |r| >= 1
    ensures forall k :: 0 <= k < |r| ==> NoSentenceEnd(r[k])
  {
    if s == [] then [""]
    else if IsSentenceEnd(s[0]) then
      var e := RunEnd(s, 0, IsSentenceEnd);
      [""] + SplitSentences(s[e..])
    else
      var rest := SplitSentences(s[1..]);
      [[s[0]] + rest[0]] + rest[1..]
  }

  /** Splitting loses exactly the punctuation: the pieces, put back together, are
      the text with every `.`, `!` and `?` removed. */
  lemma {:induction false} SplitSentencesKeepsText(s: string)
    ensures Flatten(SplitSentences(s)) == Filter(s, NotSentenceEnd)
    decreases |s|
  {
    if s == [] {
    } else if IsSentenceEnd(s[0]) {
      var e := RunEnd(s, 0, IsSentenceEnd);
      SplitSentencesKeepsText(s[e..]);
      DropPunctuation(s, e);
      assert Flatten(SplitSentences(s)) == "" + Flatten(SplitSentences(s[e..]));
    } else {
      SplitSentencesKeepsText(s[1..]);
      assert Filter(s, NotSentenceEnd) == [s[0]] + Filter(s[1..], NotSentenceEnd);
      FlattenGrowFirst(s[0], SplitSentences(s[1..]));
    }
  }

  /** A leading run of punctuation contributes nothing to the kept text. */
  lemma DropPunctuation(s: string, e: nat)
    requires e <= |s|
    requires forall k :: 0 <= k < e ==> IsSentenceEnd(s[k])
    ensures Filter(s, NotSentenceEnd) == Filter(s[e..], NotSentenceEnd)
  {
    assert s == s[..e] + s[e..];
    FilterConcat(s[..e], s[e..], NotSentenceEnd);
    FilterNone(s[..e], NotSentenceEnd);
  }

  /** Adding a character to the first piece adds it to the front of the whole. */
  lemma FlattenGrowFirst(c: char, pieces: seq<string>)
    requires pieces != []
    ensures Flatten([[c] + pieces[0]] + pieces[1..]) == [c] + Flatten(pieces)
  {
    var r := [[c] + pieces[0]] + pieces[1..];
    assert r[1..] == pieces[1..];
    assert Flatten(r) == ([c] + pieces[0]) + Flatten(pieces[1..]);
    ConcatAssoc([c], pieces[0], Flatten(pieces[1..]));
  }

  /** A text without sentence punctuation is one piece. */
  lemma {:induction false} SplitWithoutEnd(s: string)
    requires NoSentenceEnd(s)
    ensures SplitSentences(s) == [s]
    decreases |s|
  {
    if s != [] {
      assert NoSentenceEnd(s[1..]) by {
        forall j | 0 <= j < |s[1..]| ensures !IsSentenceEnd(s[1..][j]) {
          assert s[1..][j] == s[j + 1];
        }
      }
      SplitWithoutEnd(s[1..]);
      assert [s[0]] + s[1..] == s;
    }
  }

  /** `s.trim().length > 10`. */
  predicate LongSentence(s: string)
  {
    |Trim(s)| > 10
  }

  /** `excerpt || content || ""`. */
  function SummarySource(content: Option<string>, excerpt: Option<string>): (text: string)
    ensures Truthy(excerpt) ==> text == excerpt.value
    ensures !Truthy(excerpt) && Truthy(content) ==> text == content.value
    ensures !Truthy(excerpt) && !Truthy(content) ==> text == ""
  {
    OrElse(excerpt, OrElse(content, ""))
  }

  /** The sentences of `text` whose trimmed length is over 10, in order. */
  function Sentences(text: string): seq<string>
  {
    Filter(SplitSentences(text), LongSentence)
  }

  /** `generateSummary(content, excerpt)`: the first two long sentences, joined by
      ". ", trimmed, with a closing "."; "" when there is no long sentence. */
  function GenerateSummary(content: Option<string>, excerpt: Option<string>): (r: string)
    ensures r == "" <==> Sentences(SummarySource(content, excerpt)) == []
    ensures r != "" ==> r[|r| - 1] == '.'
  {
    var kept := Sentences(SummarySource(content, excerpt));
    var firstTwo := kept[..if |kept| < 2 then |kept| else 2];
    Trim(Join(firstTwo, ". ")) + (if |kept| > 0 then "." else "")
  }

  /** Every sentence kept is long and carries no punctuation of its own. */
  lemma KeptSentences(text: string)
    ensures forall k :: 0 <= k < |Sentences(text)| ==> NoSentenceEnd(Sentences(text)[k]) && |Trim(Sentences(text)[k])| > 10
  {
    var kept := Sentences(text);
    forall k | 0 <= k < |kept|
      ensures NoSentenceEnd(kept[k]) && |Trim(kept[k])| > 10
    {
      FilterMembership(SplitSentences(text), LongSentence, kept[k]);
    }
  }

  /** One long sentence: the summary is that sentence, trimmed, with a full stop. */
  lemma SummaryOfOne(content: Option<string>, excerpt: Option<string>)
    requires |Sentences(SummarySource(content, excerpt))| == 1
    ensures GenerateSummary(content, excerpt) == Trim(Sentences(SummarySource(content, excerpt))[0]) + "."
  {
    var kept := Sentences(SummarySource(content, excerpt));
    assert kept[..1] == [kept[0]];
  }

  /** Two or more: only the first two are used, joined by ". ". */
  lemma SummaryOfMany(content: Option<string>, excerpt: Option<string>)
    requires |Sentences(SummarySource(content, excerpt))| >= 2
    ensures var kept := Sentences(SummarySource(content, excerpt));
      GenerateSummary(content, excerpt) == Trim(kept[0] + ". " + kept[1]) + "."
  {
    FirstTwoJoined(Sentences(SummarySource(content, excerpt)), ". ");
  }

  lemma FirstTwoJoined(parts: seq<string>, sep: string)
    requires |parts| >= 2
    ensures Join(parts[..2], sep) == parts[0] + sep + parts[1]
  {
    assert parts[..2] == [parts[0]] + [parts[1]];
    JoinAppend([parts[0]], parts[1], sep);
  }

  /** A single long sentence without punctuation is summarised as itself, trimmed,
      with a full stop. */
  lemma OneSentenceSummary(excerpt: string)
    requires NoSentenceEnd(excerpt) && |Trim(excerpt)| > 10
    ensures GenerateSummary(None, Some(excerpt)) == Trim(excerpt) + "."
  {
    SplitWithoutEnd(excerpt);
    assert Filter([excerpt], LongSentence) == [excerpt] + Filter([excerpt][1..], LongSentence);
    SummaryOfOne(None, Some(excerpt));
  }

  const SummaryLimit := 200

  /** `summary.substring(0, 200) + (summary.length > 200 ? "..." : "")`. */
  function ShownSummary(summary: string): (r: string)
    ensures |r| <= SummaryLimit + 3
    ensures |summary| <= SummaryLimit ==> r == summary
    ensures |summary| > SummaryLimit ==> |r| == SummaryLimit + 3 && r[SummaryLimit..] == "..."
    ensures StartsWith(r, Prefix(summary, SummaryLimit))
  {
    Prefix(summary, SummaryLimit) + (if |summary| > SummaryLimit then "..." else "")
  }

  // ---------------------------------------------------------------- the email text

  /** A row of `saves` read for the digest, with what the host computes from it:
      `host` is `new URL(url).hostname` (None where the URL does not parse and the
      source throws) and `dateLabel` is `formatDate(created_at)`. */
  datatype DigestSave = DigestSave(url: string, title: Option<string>, excerpt: Option<string>,
                                   content: Option<string>, siteName: Option<string>,
                                   host: Option<string>, dateLabel: string)

  /** A row of `saves` holding a Kindle highlight. */
  datatype DigestHighlight = DigestHighlight(highlight: string, title: Option<string>)

  /** `save.site_name || new URL(save.url).hostname`. */
  function SourceOf(save: DigestSave): (r: Option<string>)
    ensures Truthy(save.siteName) ==> r == save.siteName
    ensures !Truthy(save.siteName) ==> r == save.host
  {
    if Truthy(save.siteName) then save.siteName else save.host
  }

  predicate Printable(save: DigestSave)
  {
    SourceOf(save).Some?
  }

  predicate AllPrintable(saves: seq<DigestSave>)
  {
    forall k :: 0 <= k < |saves| ==> Printable(saves[k])
  }

  /** The text block of one save: title, source and date, the shown summary when
      there is one, and the URL. */
  function SaveEntry(save: DigestSave): string
  {
    TitleLine(save) + SourceLine(save) + SummaryLine(save) + save.url + "\n\n"
  }

  function TitleLine(save: DigestSave): (r: string)
    ensures Truthy(save.title) ==> r == save.title.value + "\n"
    ensures !Truthy(save.title) ==> r == "Untitled\n"
  {
    OrElse(save.title, "Untitled") + "\n"
  }

  function SourceLine(save: DigestSave): string
  {
    OrElse(SourceOf(save), "") + " \U{2022} " + save.dateLabel + "\n"
  }

  function SummaryLine(save: DigestSave): (r: string)
    ensures r == "" <==> GenerateSummary(save.content, save.excerpt) == ""
  {
    var summary := GenerateSummary(save.content, save.excerpt);
    if summary != "" then ShownSummary(summary) + "\n" else ""
  }

  /** The first and the last two of five concatenated pieces. */
  lemma ConcatEnds(whole: string, a: string, b: string, c: string, d: string, e: string)
    requires whole == a + b + c + d + e
    ensures StartsWith(whole, a)
    ensures EndsWith(whole, d + e)
  {
    assert whole == a + (b + c + d + e);
    assert whole == (a + b + c) + (d + e);
  }

  /** An entry begins with the title, "Untitled" when there is none, and ends with
      the URL and a blank line. */
  lemma SaveEntryShape(save: DigestSave)
    ensures var title := if Truthy(save.title) then save.title.value else "Untitled";
      StartsWith(SaveEntry(save), title + "\n")
    ensures EndsWith(SaveEntry(save), save.url + "\n\n")
  {
    var whole := SaveEntry(save);
    ConcatEnds(whole, TitleLine(save), SourceLine(save), SummaryLine(save), save.url, "\n\n");
  }

  function HighlightEntry(h: DigestHighlight): string
  {
    "\"" + h.highlight + "\"\n\U{2014} " + OrElse(h.title, "Unknown Source") + "\n\n"
  }

  /** A highlight without a title is attributed to "Unknown Source". */
  lemma HighlightEntryShape(h: DigestHighlight)
    ensures !Truthy(h.title) ==> HighlightEntry(h) == "\"" + h.highlight + "\"\n\U{2014} Unknown Source\n\n"
    ensures Truthy(h.title) ==> HighlightEntry(h) == "\"" + h.highlight + "\"\n\U{2014} " + h.title.value + "\n\n"
  {
  }

  const Rule := Repeat('=', 40)

  function Header(weekStart: string, weekEnd: string): string
  {
    "YOUR STASH WEEKLY DIGEST\n" + weekStart + " - " + weekEnd + "\n\n"
  }

  function SavesHeading(count: nat): string
  {
    "SAVED THIS WEEK (" + NatToString(count) + ")\n" + Rule + "\n\n"
  }

  const NoSaves := "No new saves this week.\n\n"

  const HighlightsHeading := "\nKINDLE HIGHLIGHTS TO REVISIT\n" + Rule + "\n\n"

  function SavesSection(saves: seq<DigestSave>): string
  {
    if |saves| > 0 then SavesHeading(|saves|) + Flatten(Map(saves, SaveEntry)) else NoSaves
  }

  function HighlightsSection(highlights: seq<DigestHighlight>): string
  {
    if |highlights| > 0 then HighlightsHeading + Flatten(Map(highlights, HighlightEntry)) else ""
  }

  /** `buildEmailText(saves, highlights, weekStart, weekEnd)`; None where the source
      throws because a save has neither a site name nor a parseable URL. */
  function EmailText(saves: seq<DigestSave>, highlights: seq<DigestHighlight>, weekStart: string,
                     weekEnd: string): (r: Option<string>)
    ensures r.Some? <==> AllPrintable(saves)
  {
    if AllPrintable(saves) then Some(Header(weekStart, weekEnd) + SavesSection(saves) + HighlightsSection(highlights))
    else None
  }

  /** A text starts with the first of the pieces it is made of. */
  lemma StartsWithFirst(whole: string, a: string, b: string, c: string)
    requires whole == a + b + c
    ensures StartsWith(whole, a)
  {
    assert whole == a + (b + c);
  }

  /** The same for the six pieces of a heading followed by entries. */
  lemma StartsWithFirstOfSix(whole: string, a: string, b: string, c: string, d: string, e: string, f: string)
    requires whole == a + b + c + d + e + f
    ensures StartsWith(whole, a)
  {
    assert whole == a + (b + c + d + e + f);
  }

  /** The saves section opens with its counted heading. */
  lemma SavesSectionHeading(saves: seq<DigestSave>)
    requires |saves| > 0
    ensures StartsWith(SavesSection(saves), "SAVED THIS WEEK (")
  {
    StartsWithFirstOfSix(SavesSection(saves), "SAVED THIS WEEK (", NatToString(|saves|), ")\n", Rule, "\n\n",
                         Flatten(Map(saves, SaveEntry)));
  }

  /** The email's sections: the header first; "No new saves this week." right after
      it when there are no saves; nothing after the saves when there are no
      highlights. */
  lemma EmailSections(saves: seq<DigestSave>, highlights: seq<DigestHighlight>, weekStart: string,
                      weekEnd: string)
    requires AllPrintable(saves)
    ensures StartsWith(EmailText(saves, highlights, weekStart, weekEnd).value, Header(weekStart, weekEnd))
    ensures saves == [] ==>
      EmailText(saves, highlights, weekStart, weekEnd).value
        == Header(weekStart, weekEnd) + "No new saves this week.\n\n" + HighlightsSection(highlights)
    ensures highlights == [] ==>
      EmailText(saves, highlights, weekStart, weekEnd).value == Header(weekStart, weekEnd) + SavesSection(saves)
    ensures |saves| > 0 ==> StartsWith(SavesSection(saves), "SAVED THIS WEEK (")
  {
    var h := Header(weekStart, weekEnd);
    var text := EmailText(saves, highlights, weekStart, weekEnd).value;
    StartsWithFirst(text, h, SavesSection(saves), HighlightsSection(highlights));
    if highlights == [] {
      assert text == h + SavesSection(saves) + "";
    }
    if |saves| > 0 {
      SavesSectionHeading(saves);
    }
  }

  /** The pieces `WriteSave` appends are the lines of `SaveEntry`. */
  lemma EntryPieces(save: DigestSave, source: string, summary: string)
    requires SourceOf(save) == Some(source)
    requires summary == GenerateSummary(save.content, save.excerpt)
    ensures TitleLine(save) == OrElse(save.title, "Untitled") + "\n"
    ensures SourceLine(save) == source + " \U{2022} " + save.dateLabel + "\n"
    ensures SummaryLine(save) == if summary != "" then ShownSummary(summary) + "\n" else ""
  {
  }

  /** The four appends for one save, given its site name or host name. */
  method WriteSave(save: DigestSave, source: string) returns (entry: string)
    requires SourceOf(save) == Some(source)
    ensures entry == SaveEntry(save)
  {
    var summary := GenerateSummary(save.content, save.excerpt);
    EntryPieces(save, source, summary);
    entry := OrElse(save.title, "Untitled") + "\n";
    entry := entry + (source + " \U{2022} " + save.dateLabel + "\n");
    ghost var lines := entry;
    assert lines == TitleLine(save) + SourceLine(save);
    if summary != "" {
      entry := entry + (ShownSummary(summary) + "\n");
    }
    assert entry == lines + SummaryLine(save);
    entry := entry + save.url;
    entry := entry + "\n\n";
  }

  /** The `for (const save of saves)` loop: appends each save's block to `t`, or
      stops (None) at the first save without a site name or a parseable URL. */
  method AppendSaves(t: string, saves: seq<DigestSave>) returns (out: Option<string>)
    ensures out.Some? <==> AllPrintable(saves)
    ensures out.Some? ==> out.value == t + Flatten(Map(saves, SaveEntry))
  {
    var acc := t;
    for k := 0 to |saves|
      invariant forall j :: 0 <= j < k ==> Printable(saves[j])
      invariant acc == t + Flatten(Map(saves[..k], SaveEntry))
    {
      var save := saves[k];
      var source := SourceOf(save);
      if source.None? {
        assert !Printable(saves[k]);
        out := None;
        return;
      }
      assert forall j :: 0 <= j < k + 1 ==> Printable(saves[j]);
      var entry := WriteSave(save, source.value);
      ConcatAssoc(t, Flatten(Map(saves[..k], SaveEntry)), entry);
      acc := acc + entry;
      FlattenMapStep(saves, k, SaveEntry);
    }
    assert saves[..|saves|] == saves;
    out := Some(acc);
  }

  /** The `for (const highlight of highlights)` loop. */
  method AppendHighlights(t: string, highlights: seq<DigestHighlight>) returns (out: string)
    ensures out == t + Flatten(Map(highlights, HighlightEntry))
  {
    out := t;
    for k := 0 to |highlights|
      invariant out == t + Flatten(Map(highlights[..k], HighlightEntry))
    {
      var entry := "\"" + highlights[k].highlight + "\"\n\U{2014} " + OrElse(highlights[k].title, "Unknown Source") + "\n\n";
      ConcatAssoc(t, Flatten(Map(highlights[..k], HighlightEntry)), entry);
      out := out + entry;
      FlattenMapStep(highlights, k, HighlightEntry);
    }
    assert highlights[..|highlights|] == highlights;
  }

  /** `buildEmailText`: the header, then the saves or the no-saves line, then the
      highlights when there are any; None where the source throws. */
  method BuildEmailText(saves: seq<DigestSave>, highlights: seq<DigestHighlight>, weekStart: string,
                        weekEnd: string) returns (text: Option<string>)
    ensures text == EmailText(saves, highlights, weekStart, weekEnd)
  {
    var t := Header(weekStart, weekEnd);
    if |saves| > 0 {
      var withSaves := AppendSaves(t + SavesHeading(|saves|), saves);
      if withSaves.None? {
        text := None;
        return;
      }
      ConcatAssoc(t, SavesHeading(|saves|), Flatten(Map(saves, SaveEntry)));
      t := withSaves.value;
    } else {
      t := t + NoSaves;
    }
    assert t == Header(weekStart, weekEnd) + SavesSection(saves);
    ghost var withoutHighlights := t;
    if |highlights| > 0 {
      ConcatAssoc(t, HighlightsHeading, Flatten(Map(highlights, HighlightEntry)));
      t := AppendHighlights(t + HighlightsHeading, highlights);
    }
    assert t == withoutHighlights + HighlightsSection(highlights);
    text := Some(t);
  }

  // ---------------------------------------------------------------- the run

  const HourMs := 60 * 60 * 1000
  const DayMs := 24 * HourMs

  /** `now.getUTCDay()` for a time in milliseconds since the epoch (a Thursday);
      0 is Sunday. */
  function UtcDay(now: int): (d: int)
    ensures 0 <= d < 7
  {
    (now / DayMs + 4) % 7
  }

  /** `now.getUTCHours()`. */
  function UtcHour(now: int): (h: int)
    ensures 0 <= h < 24
  {
    (now / HourMs) % 24
  }

  /** A week later the scheduled run falls on the same day and hour. */
  lemma {:induction false} SameSlotNextWeek(now: int)
    ensures UtcDay(now + 7 * DayMs) == UtcDay(now)
    ensures UtcHour(now + 7 * DayMs) == UtcHour(now)
  {
    WeekLaterDays(now);
    WeekLaterHours(now);
  }

  lemma WeekLaterDays(now: int)
    ensures (now + 7 * DayMs) / DayMs == now / DayMs + 7
  {
    var q, r := now / DayMs, now % DayMs;
    assert now + 7 * DayMs == (q + 7) * DayMs + r;
  }

  lemma WeekLaterHours(now: int)
    ensures (now + 7 * DayMs) / HourMs == now / HourMs + 168
  {
    var q, r := now / HourMs, now % HourMs;
    assert now + 7 * DayMs == (q + 168) * HourMs + r;
  }

  /** A row of `user_preferences`; `lastDigestSent` is a time in milliseconds. */
  datatype UserPrefs = UserPrefs(userId: string, digestEnabled: bool, digestDay: int, digestHour: int,
                                 digestEmail: string, lastDigestSent: Option<int>)

  /** The users query: digest enabled, and either the targeted user or, in a
      scheduled run, the users whose day and hour are now. */
  function IsDue(target: Option<string>, now: int): UserPrefs -> bool
  {
    (u: UserPrefs) => u.digestEnabled
         && (if Truthy(target) then u.userId == target.value
             else u.digestDay == UtcDay(now) && u.digestHour == UtcHour(now))
  }

  function DueUsers(prefs: seq<UserPrefs>, target: Option<string>, now: int): seq<UserPrefs>
  {
    Filter(prefs, IsDue(target, now))
  }

  /** A user is due exactly when enabled and either targeted or scheduled now. */
  lemma DueUsersExactly(prefs: seq<UserPrefs>, target: Option<string>, now: int, u: UserPrefs)
    ensures u in DueUsers(prefs, target, now) <==>
      (u in prefs && u.digestEnabled
       && (Truthy(target) ==> u.userId == target.value)
       && (!Truthy(target) ==> u.digestDay == UtcDay(now) && u.digestHour == UtcHour(now)))
  {
    FilterMembership(prefs, IsDue(target, now), u);
  }

  /** What the database returns for one user: this week's saves (newest first, at
      most 20) and all their Kindle highlights; None where a query failed. */
  datatype UserData = UserData(saves: Option<seq<DigestSave>>, allHighlights: Option<seq<DigestHighlight>>)

  /** The environment of a run. `target` is `body?.user_id || null`; `now` is the
      clock in milliseconds; `fetch` answers the two queries for a user; `shuffle`
      is the random reordering; `send(to, text)` is the e-mail service, None when
      it accepts the message and the response text when it refuses it. */
  datatype Env = Env(target: Option<string>, now: int, weekStart: string, weekEnd: string,
                     fetch: string -> UserData,
                     shuffle: seq<DigestHighlight> -> seq<DigestHighlight>,
                     send: (string, string) -> Option<string>)

  const HighlightsPerDigest := 5

  /** `allHighlights ? allHighlights.sort(random).slice(0, 5) : []`. */
  function ChosenHighlights(env: Env, userId: string): (r: seq<DigestHighlight>)
    ensures |r| <= HighlightsPerDigest
    ensures env.fetch(userId).allHighlights.None? ==> r == []
  {
    match env.fetch(userId).allHighlights
    case None => []
    case Some(hs) =>
      var shuffled := env.shuffle(hs);
      shuffled[..if |shuffled| < HighlightsPerDigest then |shuffled| else HighlightsPerDigest]
  }

  function SavesOf(env: Env, userId: string): seq<DigestSave>
  {
    match env.fetch(userId).saves
    case None => []
    case Some(saves) => saves
  }

  /** The duplicate guard: in a scheduled run, a digest sent less than six days
      ago. */
  predicate RecentlySent(env: Env, user: UserPrefs)
  {
    !Truthy(env.target) && user.lastDigestSent.Some? && user.lastDigestSent.value > env.now - 6 * DayMs
  }

  datatype DigestResult =
    | Skipped(userId: string, reason: string)
    | Sent(userId: string, savesCount: nat, highlightsCount: nat)
      /** `error` is None where the message comes from the URL parser */
    | Failed(userId: string, error: Option<string>)

  /** The result one user's iteration pushes. */
  function Outcome(env: Env, user: UserPrefs): (r: DigestResult)
    ensures r.userId == user.userId
    ensures r == Skipped(user.userId, "recently_sent") <==> RecentlySent(env, user)
    ensures Truthy(env.target) ==> !(r.Skipped? && r.reason == "recently_sent")
    ensures r == Skipped(user.userId, "no_content") <==>
      !RecentlySent(env, user) && SavesOf(env, user.userId) == [] && ChosenHighlights(env, user.userId) == []
    ensures r.Sent? ==> r.highlightsCount <= HighlightsPerDigest && r.savesCount + r.highlightsCount > 0
    ensures r.Sent? ==>
      var text := EmailText(SavesOf(env, user.userId), ChosenHighlights(env, user.userId), env.weekStart, env.weekEnd);
      text.Some? && env.send(user.digestEmail, text.value).None?
    ensures !RecentlySent(env, user) && (SavesOf(env, user.userId) != [] || ChosenHighlights(env, user.userId) != []) ==>
      var saves, highlights := SavesOf(env, user.userId), ChosenHighlights(env, user.userId);
      var text := EmailText(saves, highlights, env.weekStart, env.weekEnd);
      && (text.None? ==> r == Failed(user.userId, None))
      && (text.Some? && env.send(user.digestEmail, text.value).Some? ==>
            r == Failed(user.userId, Some("Resend error: " + env.send(user.digestEmail, text.value).value)))
      && (text.Some? && env.send(user.digestEmail, text.value).None? ==>
            r == Sent(user.userId, |saves|, |highlights|))
  {
    if RecentlySent(env, user) then Skipped(user.userId, "recently_sent")
    else
      var saves := SavesOf(env, user.userId);
      var highlights := ChosenHighlights(env, user.userId);
      if |saves| == 0 && |highlights| == 0 then Skipped(user.userId, "no_content")
      else
        match EmailText(saves, highlights, env.weekStart, env.weekEnd)
        case None => Failed(user.userId, None)
        case Some(text) =>
          match env.send(user.digestEmail, text)
          case Some(body) => Failed(user.userId, Some("Resend error: " + body))
          case None => Sent(user.userId, |saves|, |highlights|)
  }

  /** The body of the loop over users, with each `continue` as a return; `stamp`
      says whether `last_digest_sent` is set to now. */
  method ProcessUser(env: Env, user: UserPrefs) returns (result: DigestResult, stamp: bool)
    ensures result == Outcome(env, user)
    ensures stamp <==> result.Sent?
  {
    if user.lastDigestSent.Some? && !Truthy(env.target) {
      if user.lastDigestSent.value > env.now - 6 * DayMs {
        result, stamp := Skipped(user.userId, "recently_sent"), false;
        return;
      }
    }
    var saves := env.fetch(user.userId).saves;
    var highlights := ChosenHighlights(env, user.userId);
    if (saves.None? || |saves.value| == 0) && |highlights| == 0 {
      result, stamp := Skipped(user.userId, "no_content"), false;
      return;
    }
    var savesOrEmpty := if saves.Some? then saves.value else [];
    var text := BuildEmailText(savesOrEmpty, highlights, env.weekStart, env.weekEnd);
    if text.None? {
      result, stamp := Failed(user.userId, None), false;
      return;
    }
    var refusal := env.send(user.digestEmail, text.value);
    if refusal.Some? {
      result, stamp := Failed(user.userId, Some("Resend error: " + refusal.value)), false;
      return;
    }
    result, stamp := Sent(user.userId, |savesOrEmpty|, |highlights|), true;
  }

  predicate IsSent(r: DigestResult)
  {
    r.Sent?
  }

  function UserOf(r: DigestResult): string
  {
    r.userId
  }

  /** The users whose `last_digest_sent` a run sets, in order. */
  function SentUsers(results: seq<DigestResult>): seq<string>
  {
    Map(Filter(results, IsSent), UserOf)
  }

  /** The `for (const user of users)` loop: one result per user, in order. */
  method ProcessUsers(env: Env, users: seq<UserPrefs>) returns (results: seq<DigestResult>, stamped: seq<string>)
    ensures |results| == |users|
    ensures forall k :: 0 <= k < |users| ==> results[k] == Outcome(env, users[k])
    ensures stamped == SentUsers(results)
  {
    results, stamped := [], [];
    for k := 0 to |users|
      invariant |results| == k
      invariant forall j :: 0 <= j < k ==> results[j] == Outcome(env, users[j])
      invariant stamped == SentUsers(results)
    {
      var result, stamp := ProcessUser(env, users[k]);
      FilterSnoc(results, result, IsSent);
      MapSnoc(Filter(results, IsSent), result, UserOf);
      results := results + [result];
      if stamp {
        stamped := stamped + [users[k].userId];
      }
    }
  }

  /** The response of the function. */
  datatype DigestResponse =
    | ServerError(error: string)
    | NoUsersDue
    | Processed(sent: nat, total: nat, results: seq<DigestResult>)

  /** The handler: `apiKey` is `RESEND_API_KEY`, `prefs` the `user_preferences`
      table and `queryError` the error of the users query. */
  method SendDigests(apiKey: Option<string>, prefs: seq<UserPrefs>, queryError: Option<string>, env: Env)
    returns (resp: DigestResponse, stamped: seq<string>)
    ensures !Truthy(apiKey) ==> resp == ServerError("RESEND_API_KEY not configured") && stamped == []
    ensures Truthy(apiKey) && queryError.Some? ==> resp == ServerError(queryError.value) && stamped == []
    ensures Truthy(apiKey) && queryError.None? && DueUsers(prefs, env.target, env.now) == [] ==>
      resp == NoUsersDue && stamped == []
    ensures Truthy(apiKey) && queryError.None? && DueUsers(prefs, env.target, env.now) != [] ==> resp.Processed?
    ensures resp.Processed? ==>
      var users := DueUsers(prefs, env.target, env.now);
      && users != []
      && resp.total == |users| == |resp.results|
      && (forall k :: 0 <= k < |users| ==> resp.results[k] == Outcome(env, users[k]))
      && resp.sent == |stamped| <= resp.total
      && stamped == SentUsers(resp.results)
  {
    if !Truthy(apiKey) {
      return ServerError("RESEND_API_KEY not configured"), [];
    }
    if queryError.Some? {
      return ServerError(queryError.value), [];
    }
    var users := DueUsers(prefs, env.target, env.now);
    if |users| == 0 {
      return NoUsersDue, [];
    }
    var results;
    results, stamped := ProcessUsers(env, users);
    var sent := |Filter(results, IsSent)|;
    resp := Processed(sent, |users|, results);
  }
}
