/**
 * The settings page (options.js): parsing the rules and blocked-ID text
 * areas, writing stored settings back into them, the rule counters, saving,
 * and the rule tester.
 */
module Options {
  import opened Wrappers
  import opened Strings
  import opened Blocklist
  import Content

  // ---------------------------------------------------------------------------
  // The rules text area

  /** `lines.map(l => l.trim()).filter(l => l.length > 0)` */
  function NonBlankTrimmed(lines: seq<string>): (r: seq<string>)
    ensures forall k :: 0 <= k < |r| ==> r[k] != [] && IsTrimmed(r[k])
  {
    if lines == [] then []
    else
      var t := Trim(lines[0]);
      (if t == [] then [] else [t]) + NonBlankTrimmed(lines[1..])
  }

  /** There are never more results than lines. */
  lemma {:induction false} NonBlankTrimmedLength(lines: seq<string>)
    ensures |NonBlankTrimmed(lines)| <= |lines|
  {
    if lines != [] {
      NonBlankTrimmedLength(lines[1..]);
    }
  }

  /** Lines keep their order: parsing two blocks of lines is parsing each in turn. */
  lemma {:induction false} NonBlankTrimmedAppend(a: seq<string>, b: seq<string>)
    ensures NonBlankTrimmed(a + b) == NonBlankTrimmed(a) + NonBlankTrimmed(b)
  {
    if a != [] {
      assert (a + b)[0] == a[0];
      assert (a + b)[1..] == a[1..] + b;
      NonBlankTrimmedAppend(a[1..], b);
    } else {
      assert a + b == b;
    }
  }

  /** An element of the result is exactly a non-blank line, trimmed. */
  lemma {:induction false} NonBlankTrimmedMember(lines: seq<string>, x: string)
    ensures x in NonBlankTrimmed(lines) <==> x != [] && exists k :: 0 <= k < |lines| && Trim(lines[k]) == x
  {
    if lines != [] {
      NonBlankTrimmedMember(lines[1..], x);
      if x != [] && Trim(lines[0]) != x && exists k :: 0 <= k < |lines| && Trim(lines[k]) == x {
        var k :| 0 <= k < |lines| && Trim(lines[k]) == x;
        assert lines[1..][k - 1] == lines[k];
      }
      if x != [] && exists k :: 0 <= k < |lines[1..]| && Trim(lines[1..][k]) == x {
        var k :| 0 <= k < |lines[1..]| && Trim(lines[1..][k]) == x;
        assert lines[k + 1] == lines[1..][k];
      }
    }
  }

  /** Lines that are already trimmed and non-blank come back unchanged. */
  lemma {:induction false} NonBlankTrimmedFixed(lines: seq<string>)
    requires forall k :: 0 <= k < |lines| ==> lines[k] != [] && IsTrimmed(lines[k])
    ensures NonBlankTrimmed(lines) == lines
  {
    if lines != [] {
      TrimOfTrimmed(lines[0]);
      NonBlankTrimmedFixed(lines[1..]);
    }
  }

  /** No trimmed line holds a character its line did not hold. */
  lemma {:induction false} NonBlankTrimmedAvoids(lines: seq<string>, c: char)
    requires forall k :: 0 <= k < |lines| ==> c !in lines[k]
    ensures forall k :: 0 <= k < |NonBlankTrimmed(lines)| ==> c !in NonBlankTrimmed(lines)[k]
  {
    if lines != [] {
      NonBlankTrimmedAvoids(lines[1..], c);
    }
  }

  /** Every line of a text is blank exactly when the whole text is. */
  lemma NonBlankTrimmedEmptyIff(text: string)
    ensures NonBlankTrimmed(Split(text, '\n')) == [] <==> AllWhitespace(text)
  {
    var lines := Split(text, '\n');
    SplitAllWhitespace(text, '\n');
    if NonBlankTrimmed(lines) == [] {
      forall k | 0 <= k < |lines| ensures AllWhitespace(lines[k]) {
        NonBlankTrimmedMember(lines, Trim(lines[k]));
      }
    } else {
      NonBlankTrimmedMember(lines, NonBlankTrimmed(lines)[0]);
    }
  }

  /** `parseRules`: one rule per non-blank line, trimmed. */
  function ParseRules(text: string): (r: seq<string>)
    ensures forall k :: 0 <= k < |r| ==> r[k] != [] && IsTrimmed(r[k]) && '\n' !in r[k]
  {
    var lines := Split(text, '\n');
    NonBlankTrimmedAvoids(lines, '\n');
    NonBlankTrimmed(lines)
  }

  /**
   * Writing the stored rules into the text area (`join('\n')`) and parsing it
   * again yields the same rules.
   */
  lemma ParseRulesRoundTrip(text: string)
    ensures ParseRules(Join(ParseRules(text), "\n")) == ParseRules(text)
  {
    var rules := ParseRules(text);
    if rules == [] {
      assert Split([], '\n') == [[]];
      assert Trim([]) == [];
    } else {
      SplitJoin(rules, '\n');
      NonBlankTrimmedFixed(rules);
    }
  }

  // ---------------------------------------------------------------------------
  // The blocked-ID text area

  /** `parts.map(part => part.trim())` */
  function TrimAll(parts: seq<string>): (r: seq<string>)
    ensures |r| == |parts|
    ensures forall k :: 0 <= k < |r| ==> r[k] == Trim(parts[k])
  {
    seq(|parts|, k requires 0 <= k < |parts| => Trim(parts[k]))
  }

  /** One `id: title` line: its ':'-fields trimmed, the first must be a video ID, the rest form the title. */
  function ParseIdLine(line: string): (r: Option<Entry>)
    ensures r.Some? <==> IsVideoId(Trim(Split(line, ':')[0]))
    ensures r.Some? ==> r.value.id == Trim(Split(line, ':')[0]) && r.value.title != []
  {
    var fields := TrimAll(Split(line, ':'));
    var id := fields[0];
    if IsVideoId(id) then
      var title := Join(fields[1..], ":");
      Some(Entry(id, if title == [] then UnknownTitle else title))
    else None
  }

  function ParseIdLines(lines: seq<string>): (r: seq<Entry>)
    ensures forall k :: 0 <= k < |r| ==> IsVideoId(r[k].id) && r[k].title != []
  {
    if lines == [] then []
    else
      (match ParseIdLine(lines[0]) case Some(e) => [e] case None => []) + ParseIdLines(lines[1..])
  }

  /**
   * A parsed title other than the fallback is the trimmed ':'-fields after the
   * id, joined with ':': splitting it at ':' gives those fields back. The
   * fallback is used only when nothing but blanks follows the id (or when the
   * fields after the id themselves spell the fallback).
   */
  lemma ParsedTitleParts(line: string)
    ensures ParseIdLine(line).Some? && ParseIdLine(line).value.title != UnknownTitle ==>
      Split(ParseIdLine(line).value.title, ':') == TrimAll(Split(line, ':'))[1..]
    ensures ParseIdLine(line).Some? && ParseIdLine(line).value.title == UnknownTitle ==>
      |Split(line, ':')| == 1
      || (|Split(line, ':')| == 2 && AllWhitespace(Split(line, ':')[1]))
      || Join(TrimAll(Split(line, ':'))[1..], ":") == UnknownTitle
  {
    var rest := TrimAll(Split(line, ':'))[1..];
    if ParseIdLine(line).Some? && Join(rest, ":") != [] {
      assert forall k :: 0 <= k < |rest| ==> rest[k] == Trim(Split(line, ':')[k + 1]);
      SplitJoin(rest, ':');
    }
  }

  /** A line with only an id, or with nothing but blanks after its one ':', gets the fallback title. */
  lemma MissingTitleIsUnknown(id: string, tail: string)
    requires IsVideoId(id)
    ensures ParseIdLine(id) == Some(Entry(id, UnknownTitle))
    ensures AllWhitespace(tail) && ':' !in tail ==> ParseIdLine(id + [':'] + tail) == Some(Entry(id, UnknownTitle))
  {
    VideoIdIsPlain(id);
    SplitNoSeparator(id, ':');
    if AllWhitespace(tail) && ':' !in tail {
      SplitAfterSeparator(id, tail, ':');
      SplitNoSeparator(tail, ':');
    }
  }

  /** An entry is parsed exactly when some line parses to it: lines that are not `id: title` are dropped. */
  lemma {:induction false} ParseIdLinesMember(lines: seq<string>, e: Entry)
    ensures e in ParseIdLines(lines) <==> exists k :: 0 <= k < |lines| && ParseIdLine(lines[k]) == Some(e)
  {
    if lines != [] {
      ParseIdLinesMember(lines[1..], e);
      if exists k :: 0 <= k < |lines| && ParseIdLine(lines[k]) == Some(e) {
        var k :| 0 <= k < |lines| && ParseIdLine(lines[k]) == Some(e);
        if k > 0 {
          assert lines[1..][k - 1] == lines[k];
        }
      }
      if exists k :: 0 <= k < |lines[1..]| && ParseIdLine(lines[1..][k]) == Some(e) {
        var k :| 0 <= k < |lines[1..]| && ParseIdLine(lines[1..][k]) == Some(e);
        assert lines[k + 1] == lines[1..][k];
      }
    }
  }

  /** `parseBlockedVideoIds`, and the same pipeline written inline in `saveRules`. */
  function ParseBlockedVideoIds(text: string): (r: seq<Entry>)
    ensures forall k :: 0 <= k < |r| ==> IsVideoId(r[k].id) && r[k].title != []
  {
    ParseIdLines(Split(text, '\n'))
  }

  /** What `loadSettings` writes for one entry. */
  function FormatEntry(e: Entry): string
  {
    e.id + ": " + e.title
  }

  /** What `loadSettings` writes for the whole list. */
  function FormatEntries(entries: seq<Entry>): string
  {
    Join(seq(|entries|, k requires 0 <= k < |entries| => FormatEntry(entries[k])), "\n")
  }

  /** An entry that formatting and parsing reproduce: a valid ID and a one-line title with trimmed ':'-parts. */
  predicate WellFormedEntry(e: Entry)
  {
    && IsVideoId(e.id)
    && e.title != []
    && '\n' !in e.title
    && forall k :: 0 <= k < |Split(e.title, ':')| ==> IsTrimmed(Split(e.title, ':')[k])
  }

  lemma ParseFormattedEntry(e: Entry)
    requires WellFormedEntry(e)
    ensures ParseIdLine(FormatEntry(e)) == Some(e)
  {
    var parts := Split(e.title, ':');
    VideoIdIsPlain(e.id);
    assert FormatEntry(e) == e.id + [':'] + ([' '] + e.title);
    SplitAfterSeparator(e.id, [' '] + e.title, ':');
    SplitPrefix([' '], e.title, ':');
    var fields := Split(FormatEntry(e), ':');
    assert fields == [e.id] + ([[' '] + parts[0]] + parts[1..]);
    TrimLeadingWhitespace(' ', parts[0]);
    TrimOfTrimmed(parts[0]);
    var trimmed := TrimAll(fields);
    assert trimmed[0] == e.id;
    assert trimmed[1..] == parts by {
      forall k | 1 <= k < |trimmed| ensures trimmed[k] == parts[k - 1] {
        if k > 1 {
          assert fields[k] == parts[k - 1];
          TrimOfTrimmed(parts[k - 1]);
        }
      }
    }
    JoinSplit(e.title, ':');
  }

  /** `${id}: ${title}` lines of well-formed entries parse back into the same list. */
  lemma {:induction false} FormatEntriesRoundTrip(entries: seq<Entry>)
    requires forall k :: 0 <= k < |entries| ==> WellFormedEntry(entries[k])
    ensures ParseBlockedVideoIds(FormatEntries(entries)) == entries
  {
    var lines := seq(|entries|, k requires 0 <= k < |entries| => FormatEntry(entries[k]));
    if entries == [] {
      assert Split([], '\n') == [[]];
      assert Split([], ':') == [[]];
      assert ParseIdLine([]) == None;
    } else {
      forall k | 0 <= k < |lines| ensures '\n' !in lines[k] {
        VideoIdIsPlain(entries[k].id);
        assert lines[k] == entries[k].id + ": " + entries[k].title;
      }
      SplitJoin(lines, '\n');
      ParsedFormattedLines(entries);
    }
  }

  lemma {:induction false} ParsedFormattedLines(entries: seq<Entry>)
    requires forall k :: 0 <= k < |entries| ==> WellFormedEntry(entries[k])
    ensures ParseIdLines(seq(|entries|, k requires 0 <= k < |entries| => FormatEntry(entries[k]))) == entries
  {
    var lines := seq(|entries|, k requires 0 <= k < |entries| => FormatEntry(entries[k]));
    if entries != [] {
      ParseFormattedEntry(entries[0]);
      ParsedFormattedLines(entries[1..]);
      assert lines[1..] == seq(|entries[1..]|, k requires 0 <= k < |entries[1..]| => FormatEntry(entries[1..][k]));
    }
  }

  /** The trimmed ':'-fields of a one-line string are trimmed and hold neither ':' nor a newline. */
  lemma TrimmedFieldsPlain(line: string)
    requires '\n' !in line
    ensures forall k :: 0 <= k < |TrimAll(Split(line, ':'))| ==>
      ':' !in TrimAll(Split(line, ':'))[k] && '\n' !in TrimAll(Split(line, ':'))[k] && IsTrimmed(TrimAll(Split(line, ':'))[k])
  {
    SplitAvoids(line, ':', '\n');
  }

  /** Plain trimmed fields joined with ':' make a one-line title whose ':'-parts are those fields. */
  lemma JoinedTitleWellFormed(rest: seq<string>)
    requires forall k :: 0 <= k < |rest| ==> ':' !in rest[k] && '\n' !in rest[k] && IsTrimmed(rest[k])
    ensures '\n' !in Join(rest, ":")
    ensures rest != [] ==> Split(Join(rest, ":"), ':') == rest
  {
    JoinAvoids(rest, ":", '\n');
    if rest != [] {
      SplitJoin(rest, ':');
    }
  }

  /** A title of one trimmed line with no ':' is well formed. */
  lemma PlainTitleWellFormed(id: string, title: string)
    requires IsVideoId(id) && title != [] && IsTrimmed(title)
    requires ':' !in title && '\n' !in title
    ensures WellFormedEntry(Entry(id, title))
  {
    SplitNoSeparator(title, ':');
  }

  /** Every parsed entry is well formed: its title is one line whose ':'-parts are already trimmed. */
  lemma ParsedEntryWellFormed(line: string)
    requires '\n' !in line
    requires ParseIdLine(line).Some?
    ensures WellFormedEntry(ParseIdLine(line).value)
  {
    var fields := TrimAll(Split(line, ':'));
    var rest := fields[1..];
    var title := Join(rest, ":");
    var e := ParseIdLine(line).value;
    assert e == Entry(fields[0], if title == [] then UnknownTitle else title);
    if title == [] {
      assert ':' !in UnknownTitle && '\n' !in UnknownTitle;
      PlainTitleWellFormed(fields[0], UnknownTitle);
    } else {
      TrimmedFieldsPlain(line);
      JoinedTitleWellFormed(rest);
    }
  }

  /**
   * A title with a space after a ':' does not survive a load and save: each
   * ':'-part is trimmed, so `a: b` comes back as `a:b`.
   */
  lemma ColonSpaceTitleChanges(id: string, a: string, b: string)
    requires IsVideoId(id)
    requires a != [] && IsTrimmed(a) && ':' !in a
    requires b != [] && IsTrimmed(b) && ':' !in b
    ensures ParseIdLine(FormatEntry(Entry(id, a + ": " + b))) == Some(Entry(id, a + ":" + b))
    ensures a + ": " + b != a + ":" + b
  {
    var line := FormatEntry(Entry(id, a + ": " + b));
    var after := [' '] + a + [':'] + ([' '] + b);
    VideoIdIsPlain(id);
    assert line == id + [':'] + after;
    SplitAfterSeparator(id, after, ':');
    assert ':' !in [' '] + a;
    SplitAfterSeparator([' '] + a, [' '] + b, ':');
    SplitNoSeparator([' '] + b, ':');
    TrimLeadingWhitespace(' ', a);
    TrimLeadingWhitespace(' ', b);
    TrimOfTrimmed(a);
    TrimOfTrimmed(b);
    var fields := TrimAll(Split(line, ':'));
    assert fields == [id, a, b];
    assert fields[1..] == [a, b];
    assert Join([a, b], ":") == a + ":" + b;
    assert (a + ": " + b)[|a| + 1] == ' ' != (a + ":" + b)[|a| + 1];
  }

  lemma {:induction false} JoinAvoids(parts: seq<string>, sep: string, c: char)
    requires c !in sep
    requires forall k :: 0 <= k < |parts| ==> c !in parts[k]
    ensures c !in Join(parts, sep)
  {
    if |parts| > 1 {
      JoinAvoids(parts[1..], sep, c);
    }
  }

  lemma {:induction false} ParsedLinesWellFormed(lines: seq<string>)
    requires forall k :: 0 <= k < |lines| ==> '\n' !in lines[k]
    ensures forall k :: 0 <= k < |ParseIdLines(lines)| ==> WellFormedEntry(ParseIdLines(lines)[k])
  {
    if lines != [] {
      ParsedLinesWellFormed(lines[1..]);
      if ParseIdLine(lines[0]).Some? {
        ParsedEntryWellFormed(lines[0]);
      }
    }
  }

  /**
   * Loading the saved list into the text area and saving it again stores the
   * same list.
   */
  lemma BlockedIdsLoadSaveStable(text: string)
    ensures ParseBlockedVideoIds(FormatEntries(ParseBlockedVideoIds(text))) == ParseBlockedVideoIds(text)
  {
    ParsedLinesWellFormed(Split(text, '\n'));
    FormatEntriesRoundTrip(ParseBlockedVideoIds(text));
  }

  // ---------------------------------------------------------------------------
  // The counters of updateStats

  /** The IDs `updateStats` counts: the first ':'-field of each line, trimmed, when it is a video ID. */
  function CountedIds(lines: seq<string>): (r: seq<string>)
    ensures forall k :: 0 <= k < |r| ==> IsVideoId(r[k])
  {
    if lines == [] then []
    else
      var id := Trim(Split(lines[0], ':')[0]);
      (if IsVideoId(id) then [id] else []) + CountedIds(lines[1..])
  }

  /** The counter's own pipeline finds the same IDs, in the same order, as the parse that is saved. */
  lemma {:induction false} CountedIdsAgree(lines: seq<string>)
    ensures |CountedIds(lines)| == |ParseIdLines(lines)|
    ensures forall k :: 0 <= k < |CountedIds(lines)| ==> CountedIds(lines)[k] == ParseIdLines(lines)[k].id
  {
    if lines != [] {
      CountedIdsAgree(lines[1..]);
    }
  }

  // ---------------------------------------------------------------------------
  // The rule tester

  /** The tester's match: the (already trimmed) rule occurs in the title ignoring case. */
  predicate TesterMatch(rule: string, title: string)
  {
    Contains(Lower(title), Lower(rule))
  }

  /** On rules that `parseRules` produced the tester and the content script agree. */
  lemma TesterAgreesWithContentScript(text: string, title: string)
    ensures forall k :: 0 <= k < |ParseRules(text)| ==>
      (TesterMatch(ParseRules(text)[k], title) <==> Content.RuleMatches(ParseRules(text)[k], title))
  {
    var rules := ParseRules(text);
    forall k | 0 <= k < |rules| ensures TesterMatch(rules[k], title) <==> Content.RuleMatches(rules[k], title) {
      TrimOfTrimmed(rules[k]);
    }
  }

  /** `matchedRules` for one title: the matching rules in rule order. */
  function MatchedRules(rules: seq<string>, title: string): seq<string>
  {
    if rules == [] then []
    else
      var last := rules[|rules| - 1];
      MatchedRules(rules[..|rules| - 1], title) + (if TesterMatch(last, title) then [last] else [])
  }

  /** A rule is reported for a title exactly when it is one of the rules and matches the title. */
  lemma {:induction false} MatchedRulesMember(rules: seq<string>, title: string, x: string)
    ensures x in MatchedRules(rules, title) <==> x in rules && TesterMatch(x, title)
  {
    if rules != [] {
      var front := rules[..|rules| - 1];
      MatchedRulesMember(front, title, x);
      assert rules == front + [rules[|rules| - 1]];
    }
  }

  /** Matched rules keep rule order: the rules of two blocks are those of the first, then of the second. */
  lemma {:induction false} MatchedRulesAppend(a: seq<string>, b: seq<string>, title: string)
    ensures MatchedRules(a + b, title) == MatchedRules(a, title) + MatchedRules(b, title)
    decreases |b|
  {
    if b == [] {
      assert a + b == a;
    } else {
      var front := b[..|b| - 1];
      MatchedRulesAppend(a, front, title);
      assert (a + b)[..|a + b| - 1] == a + front;
    }
  }

  /** One line of the detailed test results. */
  function ResultLine(title: string, matched: seq<string>): string
  {
    if |matched| > 0 then "\U{274C} \"" + title + "\" (matches: " + Join(matched, ", ") + ")"
    else "\U{2705} \"" + title + "\""
  }

  /** The titles `testRules` counts as blocked, in title order. */
  function BlockedTitles(rules: seq<string>, titles: seq<string>): seq<string>
  {
    if titles == [] then []
    else
      var last := titles[|titles| - 1];
      BlockedTitles(rules, titles[..|titles| - 1]) + (if |MatchedRules(rules, last)| > 0 then [last] else [])
  }

  /** The detailed result lines, one per title. */
  function ResultLines(rules: seq<string>, titles: seq<string>): (r: seq<string>)
    ensures |r| == |titles|
  {
    if titles == [] then []
    else
      var last := titles[|titles| - 1];
      ResultLines(rules, titles[..|titles| - 1]) + [ResultLine(last, MatchedRules(rules, last))]
  }

  /** No more titles are blocked than tested, so the allowed count is never negative. */
  lemma {:induction false} BlockedTitlesLength(rules: seq<string>, titles: seq<string>)
    ensures |BlockedTitles(rules, titles)| <= |titles|
  {
    if titles != [] {
      BlockedTitlesLength(rules, titles[..|titles| - 1]);
    }
  }

  /** A title is counted as blocked exactly when it is tested and some rule matches it. */
  lemma {:induction false} BlockedTitlesMember(rules: seq<string>, titles: seq<string>, t: string)
    ensures t in BlockedTitles(rules, titles) <==>
      t in titles && exists k :: 0 <= k < |rules| && TesterMatch(rules[k], t)
  {
    if titles != [] {
      var front := titles[..|titles| - 1];
      var last := titles[|titles| - 1];
      BlockedTitlesMember(rules, front, t);
      assert titles == front + [last];
      if t == last {
        if |MatchedRules(rules, last)| > 0 {
          MatchedRulesMember(rules, last, MatchedRules(rules, last)[0]);
        } else {
          forall k | 0 <= k < |rules| ensures !TesterMatch(rules[k], t) {
            MatchedRulesMember(rules, last, rules[k]);
          }
        }
      }
    }
  }

  /**
   * On the rules the settings page saves, the tester blocks exactly the
   * titles the content script would block by a title rule.
   */
  lemma TesterBlocksAsContentScript(text: string, titles: seq<string>, t: string)
    ensures t in BlockedTitles(ParseRules(text), titles) <==>
      t in titles && Content.AnyRuleMatches(ParseRules(text), t)
  {
    BlockedTitlesMember(ParseRules(text), titles, t);
    TesterAgreesWithContentScript(text, t);
  }

  /** The loops of `testRules`: match every rule against every title, collecting blocked titles and result lines. */
  method TallyTitles(rules: seq<string>, titles: seq<string>) returns (blockedTitles: seq<string>, results: seq<string>)
    ensures blockedTitles == BlockedTitles(rules, titles)
    ensures results == ResultLines(rules, titles)
    ensures |blockedTitles| <= |titles| && |results| == |titles|
  {
    blockedTitles, results := [], [];
    for i := 0 to |titles|
      invariant blockedTitles == BlockedTitles(rules, titles[..i])
      invariant results == ResultLines(rules, titles[..i])
    {
      var title := titles[i];
      var matchedRules := [];
      for j := 0 to |rules|
        invariant matchedRules == MatchedRules(rules[..j], title)
      {
        assert rules[..j + 1][..j] == rules[..j];
        if Contains(Lower(title), Lower(rules[j])) {
          matchedRules := matchedRules + [rules[j]];
        }
      }
      assert rules[..|rules|] == rules;
      assert titles[..i + 1][..i] == titles[..i];
      if |matchedRules| > 0 {
        blockedTitles := blockedTitles + [title];
        results := results + ["\U{274C} \"" + title + "\" (matches: " + Join(matchedRules, ", ") + ")"];
      } else {
        results := results + ["\U{2705} \"" + title + "\""];
      }
    }
    assert titles[..|titles|] == titles;
    BlockedTitlesLength(rules, titles);
  }

  /** The sample titles the tester falls back to. */
  const DefaultTitles: seq<string> := [
    "Amazing Cat Videos Compilation",
    "SCAMMER Gets EXPOSED!!!",
    "Clickbait Title YOU WON'T BELIEVE",
    "How to Cook Pasta - Simple Tutorial",
    "Reaction Video to Popular Song",
    "I Tried Fortnite Cheats\U{2026} And This Happened",
    "I Tried the Viral Money Hack \U{2013} Insane Results!",
    "Win Free PS5 Now \U{2013} Limited Spots Left!",
    "One Stock to Make You Rich Overnight",
    "Cure Diseases with This Kitchen Item Fast",
    "ASMR Challenge That Almost Killed Me"
  ]

  /** The samples as they are written into the tester's text area, one per line. */
  const DefaultTitlesText: string := Join(DefaultTitles, "\n")

  /** The titles typed into the tester: a non-blank text area always yields at least one. */
  lemma TypedTitlesNonEmpty(text: string)
    ensures Trim(text) != [] <==> NonBlankTrimmed(Split(text, '\n')) != []
  {
    NonBlankTrimmedEmptyIff(text);
  }

  /** The outcome of `testRules`. */
  datatype TestReport =
    | NoRules
    | Report(blockedTitles: seq<string>, totalBlocked: nat, totalAllowed: nat, totalTested: nat, detailedResults: string)

  function SummaryLine(blocked: nat, allowed: nat, tested: nat): string
  {
    NatToString(blocked) + " blocked, " + NatToString(allowed) + " allowed out of " + NatToString(tested) + " titles"
  }

  // ---------------------------------------------------------------------------
  // The settings page

  /**
   * The settings page: its text areas, the two counters, the status message,
   * and the two synced settings it reads and writes (`None` when never saved).
   */
  class OptionsManager {
    var rulesText: string
    var idsText: string
    var testTitlesText: string
    var titleRuleCount: nat
    var blockedIdCount: nat
    var status: string
    var storedRules: Option<seq<string>>
    var storedIds: Option<seq<Entry>>

    constructor (storedRules: Option<seq<string>>, storedIds: Option<seq<Entry>>)
      ensures this.storedRules == storedRules && this.storedIds == storedIds
      ensures rulesText == [] && idsText == [] && testTitlesText == [] && status == []
      ensures titleRuleCount == 0 && blockedIdCount == 0
    {
      this.storedRules := storedRules;
      this.storedIds := storedIds;
      rulesText, idsText, testTitlesText, status := [], [], [], [];
      titleRuleCount, blockedIdCount := 0, 0;
    }

    /** `loadSettings`: fills the text areas from the stored settings and the tester with the samples. */
    method LoadSettings()
      modifies this`rulesText, this`idsText, this`testTitlesText
      ensures rulesText == if storedRules.Some? then Join(storedRules.value, "\n") else old(rulesText)
      ensures idsText == if storedIds.Some? then FormatEntries(storedIds.value) else old(idsText)
      ensures testTitlesText == if Trim(old(testTitlesText)) == [] then DefaultTitlesText else old(testTitlesText)
    {
      if storedRules.Some? {
        rulesText := Join(storedRules.value, "\n");
      }
      if storedIds.Some? {
        idsText := FormatEntries(storedIds.value);
      }
      if Trim(testTitlesText) == [] {
        testTitlesText := DefaultTitlesText;
      }
    }

    /** `updateStats`: the number of rules and of blocked IDs in the text areas. */
    method UpdateStats()
      modifies this`titleRuleCount, this`blockedIdCount
      ensures titleRuleCount == |ParseRules(rulesText)|
      ensures blockedIdCount == |ParseBlockedVideoIds(idsText)|
    {
      var titleRules := ParseRules(rulesText);
      var blockedVideoIds := CountedIds(Split(idsText, '\n'));
      CountedIdsAgree(Split(idsText, '\n'));
      titleRuleCount := |titleRules|;
      blockedIdCount := |blockedVideoIds|;
    }

    /** `saveRules`: stores both parsed lists, refreshes the counters and reports success. */
    method SaveRules(autoSave: bool)
      modifies this`storedRules, this`storedIds, this`titleRuleCount, this`blockedIdCount, this`status
      ensures storedRules == Some(ParseRules(rulesText))
      ensures storedIds == Some(ParseBlockedVideoIds(idsText))
      ensures titleRuleCount == |storedRules.value| && blockedIdCount == |storedIds.value|
      ensures status == if autoSave then "Rules auto-saved" else "Rules saved successfully"
    {
      var rules := ParseRules(rulesText);
      var blockedVideoIds := ParseBlockedVideoIds(idsText);
      storedRules := Some(rules);
      storedIds := Some(blockedVideoIds);
      UpdateStats();
      status := if autoSave then "Rules auto-saved" else "Rules saved successfully";
    }

    /** `testRules`: runs the parsed rules over the typed titles, or over the samples when none are typed. */
    method TestRules() returns (report: TestReport)
      modifies this`testTitlesText, this`status
      ensures ParseRules(rulesText) == [] ==>
        report == NoRules && status == "No rules to test" && testTitlesText == old(testTitlesText)
      ensures ParseRules(rulesText) != [] ==>
        var titles := if Trim(old(testTitlesText)) != [] then NonBlankTrimmed(Split(old(testTitlesText), '\n'))
                      else DefaultTitles;
        && testTitlesText == (if Trim(old(testTitlesText)) != [] then old(testTitlesText) else DefaultTitlesText)
        && report.Report?
        && report.blockedTitles == BlockedTitles(ParseRules(rulesText), titles)
        && report.totalTested == |titles|
        && report.totalBlocked == |report.blockedTitles|
        && report.totalBlocked + report.totalAllowed == report.totalTested
        && report.detailedResults ==
             "Test Results Summary:\n"
             + SummaryLine(report.totalBlocked, report.totalAllowed, report.totalTested) + "\n\n"
             + "Detailed Results:\n"
             + Join(ResultLines(ParseRules(rulesText), titles), "\n")
        && status == "Test complete: " + SummaryLine(report.totalBlocked, report.totalAllowed, report.totalTested)
    {
      var rules := ParseRules(rulesText);
      if |rules| == 0 {
        status := "No rules to test";
        return NoRules;
      }
      var testTitles: seq<string> := [];
      if Trim(testTitlesText) != [] {
        testTitles := NonBlankTrimmed(Split(testTitlesText, '\n'));
      }
      if |testTitles| == 0 {
        TypedTitlesNonEmpty(testTitlesText);
        testTitles := DefaultTitles;
        testTitlesText := DefaultTitlesText;
      }
      var blockedTitles, results := TallyTitles(rules, testTitles);
      var totalTested := |testTitles|;
      var totalBlocked := |blockedTitles|;
      var totalAllowed := totalTested - totalBlocked;
      var detailedResults := "Test Results Summary:\n";
      detailedResults := detailedResults + SummaryLine(totalBlocked, totalAllowed, totalTested) + "\n\n";
      detailedResults := detailedResults + "Detailed Results:\n";
      detailedResults := detailedResults + Join(results, "\n");
      status := "Test complete: " + SummaryLine(totalBlocked, totalAllowed, totalTested);
      report := Report(blockedTitles, totalBlocked, totalAllowed, totalTested, detailedResults);
    }
  }
}
