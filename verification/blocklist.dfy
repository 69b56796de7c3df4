/**
 * The blocked-video list shared by the content script and the options page:
 * entries `{ id, title }` whose id is an 11-character YouTube video ID.
 */
module Blocklist {
  import opened Strings

  /** The character class [a-zA-Z0-9_-] of every video-ID pattern. */
  predicate IsIdChar(c: char)
  {
    'A' <= c <= 'Z' || 'a' <= c <= 'z' || '0' <= c <= '9' || c == '_' || c == '-'
  }

  const IdLength: nat := 11

  /** `^[a-zA-Z0-9_-]{11}$` */
  predicate IsVideoId(s: string)
  {
    |s| == IdLength && forall i :: 0 <= i < |s| ==> IsIdChar(s[i])
  }

  /** The title stored when none could be found or none was written. */
  const UnknownTitle: string := "Unknown Title"

  datatype Entry = Entry(id: string, title: string)

  /** No two entries share an id. */
  predicate UniqueIds(entries: seq<Entry>)
  {
    forall j, k :: 0 <= j < k < |entries| ==> entries[j].id != entries[k].id
  }

  /** A video ID has no whitespace, colon or newline, so trimming or splitting leaves it whole. */
  lemma VideoIdIsPlain(s: string)
    requires IsVideoId(s)
    ensures IsTrimmed(s) && Trim(s) == s
    ensures ':' !in s && '\n' !in s
  {
    assert !IsWhitespace(s[0]) && !IsWhitespace(s[|s| - 1]);
    TrimOfTrimmed(s);
  }
}
