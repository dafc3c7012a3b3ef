/** The text of a job card: the first 156 characters of the posting's
    description with every match of the regular expression `<[^>]*>?`
    deleted (a global replace with the empty string). */
module JobCard {
  import opened Collections

  /** How much of the description a card previews. */
  const PreviewLength: nat := 156

  /** The rest of a match after its opening `<`: the greedy `[^>]*` takes
      every character up to the first `>`, and `>?` takes that `>`. With no
      `>` left the match runs to the end of the text. The result is what
      follows the match. */
  function SkipTag(s: string): (r: string)
    ensures |r| <= |s|
    ensures r == s[|s| - |r|..]
    ensures '>' !in s ==> r == []
  {
    if s == [] then []
    else if s[0] == '>' then s[1..]
    else SkipTag(s[1..])
  }

  /** `html.replace(/<[^>]*>?/gm, "")`. Matches can only start at a `<`, so
      every other character outside a match is kept, and the scan resumes
      right after each match. */
  function Sanitize(s: string): (r: string)
    ensures |r| <= |s|
    decreases |s|
  {
    if s == [] then []
    else if s[0] == '<' then Sanitize(SkipTag(s[1..]))
    else [s[0]] + Sanitize(s[1..])
  }

  /** No `<` survives: each one starts a match that deletes it. */
  lemma {:induction false} SanitizeRemovesOpeners(s: string)
    ensures '<' !in Sanitize(s)
    decreases |s|
  {
    if s != [] {
      if s[0] == '<' {
        SanitizeRemovesOpeners(SkipTag(s[1..]));
      } else {
        SanitizeRemovesOpeners(s[1..]);
      }
    }
  }

  /** Text without a `<` contains no match and is returned unchanged. */
  lemma {:induction false} SanitizeWithoutOpeners(s: string)
    ensures '<' !in s ==> Sanitize(s) == s
  {
    if s != [] && '<' !in s {
      SanitizeWithoutOpeners(s[1..]);
      assert s == [s[0]] + s[1..];
    }
  }

  /** Sanitising twice is sanitising once. */
  lemma SanitizeIdempotent(s: string)
    ensures Sanitize(Sanitize(s)) == Sanitize(s)
  {
    SanitizeRemovesOpeners(s);
    SanitizeWithoutOpeners(Sanitize(s));
  }

  /** The output is the input with characters deleted: whatever text is
      kept stays in its original order. */
  lemma {:induction false} SanitizeKeepsOrder(s: string)
    ensures IsSubsequence(Sanitize(s), s)
    decreases |s|
  {
    if s != [] {
      if s[0] == '<' {
        var rest := SkipTag(s[1..]);
        SanitizeKeepsOrder(rest);
        assert rest == s[|s| - |rest|..];
        SubsequenceOfSuffix(Sanitize(rest), s, |s| - |rest|);
      } else {
        SanitizeKeepsOrder(s[1..]);
        assert ([s[0]] + Sanitize(s[1..]))[1..] == Sanitize(s[1..]);
      }
    }
  }

  lemma {:induction false} SkipClosedTag(inner: string, rest: string)
    requires '>' !in inner
    ensures SkipTag(inner + ['>'] + rest) == rest
  {
    if inner == [] {
      assert inner + ['>'] + rest == ['>'] + rest;
    } else {
      assert (inner + ['>'] + rest)[1..] == inner[1..] + ['>'] + rest;
      SkipClosedTag(inner[1..], rest);
    }
  }

  /** A character other than `<` is kept and the scan moves on. */
  lemma SanitizeKeeps(c: char, t: string)
    requires c != '<'
    ensures Sanitize([c] + t) == [c] + Sanitize(t)
  {
    assert ([c] + t)[1..] == t;
  }

  /** A `<` opens a match; the scan resumes after it. */
  lemma SanitizeSkips(t: string)
    ensures Sanitize(['<'] + t) == Sanitize(SkipTag(t))
  {
    assert (['<'] + t)[1..] == t;
  }

  lemma ClosedTagFirst(inner: string, rest: string)
    requires '>' !in inner
    ensures Sanitize(['<'] + inner + ['>'] + rest) == Sanitize(rest)
  {
    assert ['<'] + inner + ['>'] + rest == ['<'] + (inner + ['>'] + rest);
    SanitizeSkips(inner + ['>'] + rest);
    SkipClosedTag(inner, rest);
  }

  /** Text without a `<` in front of the input is kept as it is. */
  lemma {:induction false} SanitizePlainPrefix(text: string, s: string)
    requires '<' !in text
    ensures Sanitize(text + s) == text + Sanitize(s)
  {
    if text == [] {
      assert text + s == s;
    } else {
      assert text + s == [text[0]] + (text[1..] + s);
      SanitizeKeeps(text[0], text[1..] + s);
      SanitizePlainPrefix(text[1..], s);
      assert [text[0]] + (text[1..] + Sanitize(s)) == text + Sanitize(s);
    }
  }

  /** A complete tag `<...>` is removed with its brackets; the text before
      it and the sanitised text after it are kept, in order. */
  lemma TagRemoved(text: string, inner: string, rest: string)
    requires '<' !in text && '>' !in inner
    ensures Sanitize(text + ['<'] + inner + ['>'] + rest) == text + Sanitize(rest)
  {
    var tag := ['<'] + inner + ['>'] + rest;
    calc {
      Sanitize(text + ['<'] + inner + ['>'] + rest);
      { assert text + ['<'] + inner + ['>'] + rest == text + tag; }
      Sanitize(text + tag);
      { SanitizePlainPrefix(text, tag); }
      text + Sanitize(tag);
      { ClosedTagFirst(inner, rest); }
      text + Sanitize(rest);
    }
  }

  /** A `<` that is never closed removes everything from it to the end. */
  lemma {:induction false} UnclosedTagTruncates(text: string, tail: string)
    requires '<' !in text && '>' !in tail
    ensures Sanitize(text + ['<'] + tail) == text
  {
    if text == [] {
      assert text + ['<'] + tail == ['<'] + tail;
      SanitizeSkips(tail);
    } else {
      var t := text[1..] + ['<'] + tail;
      assert text + ['<'] + tail == [text[0]] + t;
      SanitizeKeeps(text[0], t);
      UnclosedTagTruncates(text[1..], tail);
      assert [text[0]] + text[1..] == text;
    }
  }

  /** `sanitizeHtml(job.description.slice(0, 156))`: at most 156
      characters, none of them `<`, and a preview with no `<` is shown
      as it is. */
  function CardText(description: string): (r: string)
    ensures |r| <= PreviewLength
    ensures '<' !in r
    ensures '<' !in Take(description, PreviewLength) ==> r == Take(description, PreviewLength)
    ensures IsSubsequence(r, Take(description, PreviewLength))
  {
    var preview := Take(description, PreviewLength);
    SanitizeKeepsOrder(preview);
    SanitizeRemovesOpeners(preview);
    SanitizeWithoutOpeners(preview);
    Sanitize(preview)
  }
}
