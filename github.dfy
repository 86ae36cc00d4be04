/**
 * Issue-key extraction from the event that triggered the workflow
 * (src/github.ts, `loadIssues`).
 */
module GitHub {
  import opened Wrappers
  import opened Sequences

  /** The webhook event, reduced to the payload fields the extractor reads. */
  datatype Event =
    | PullRequest(title: string, body: string)
    | Push(messages: seq<string>)
    | Release(body: string)
    | Other

  /**
   * The regular-expression engine: every match of a pattern in a text, in
   * order (`text.match(new RegExp(pattern, 'gmi'))`). The engine is not part
   * of the model, so it is a parameter.
   */
  type Matcher = (string, string) -> seq<string>

  /** The text searched for a push: `"\n" + message` for every commit, in payload order. */
  function PushBlob(messages: seq<string>): (blob: string)
  {
    if messages == [] then ""
    else PushBlob(messages[..|messages| - 1]) + "\n" + messages[|messages| - 1]
  }

  /** The push text of two runs of commits is the push text of each, joined. */
  lemma {:induction false} PushBlobConcat(a: seq<string>, b: seq<string>)
    ensures PushBlob(a + b) == PushBlob(a) + PushBlob(b)
  {
    if b == [] {
      assert a + b == a;
    } else {
      var b' := b[..|b| - 1];
      assert (a + b)[..|a + b| - 1] == a + b';
      PushBlobConcat(a, b');
    }
  }

  /** The push text starts with the first commit's message behind a newline. */
  lemma PushBlobCons(m: string, rest: seq<string>)
    ensures PushBlob([m] + rest) == "\n" + m + PushBlob(rest)
  {
    PushBlobConcat([m], rest);
    assert PushBlob([m]) == PushBlob([]) + "\n" + m;
  }

  /** Every commit contributes its newline: the push text is at least as long as the commit list. */
  lemma {:induction false} PushBlobLength(messages: seq<string>)
    ensures |PushBlob(messages)| >= |messages|
    ensures messages == [] <==> PushBlob(messages) == ""
  {
    if messages != [] {
      PushBlobLength(messages[..|messages| - 1]);
    }
  }

  /**
   * The text the pattern is applied to, or None for an event that is none of
   * pull_request, push and release.
   */
  function SearchString(event: Event): (blob: Option<string>)
    ensures blob.None? <==> event.Other?
    ensures event.Release? ==> blob == Some(event.body)
  {
    match event
    case PullRequest(title, body) => Some(title + "\n" + body)
    case Push(messages) => Some(PushBlob(messages))
    case Release(body) => Some(body)
    case Other => None
  }

  /**
   * The raw matches with later repetitions removed, as iterating a JavaScript
   * `Set` built from them yields them: each distinct match once, at the place
   * of its first occurrence. The comparison is exact, so case matters.
   */
  function Dedup(matches: seq<string>): (unique: seq<string>)
    ensures |unique| <= |matches|
    ensures forall x :: x in unique <==> x in matches
    ensures Distinct(unique)
  {
    if matches == [] then []
    else
      var seen := Dedup(matches[..|matches| - 1]);
      var m := matches[|matches| - 1];
      assert forall x :: x in matches <==> x in matches[..|matches| - 1] || x == m by {
        assert matches == matches[..|matches| - 1] + [m];
      }
      if m in seen then seen else seen + [m]
  }

  /** Deduplication leaves one entry per distinct raw match. */
  lemma DedupCount(matches: seq<string>)
    ensures |Dedup(matches)| == |set x | x in matches|
  {
    var unique := Dedup(matches);
    DistinctCardinality(unique);
    assert (set x | x in unique) == (set x | x in matches);
  }

  /** The kept entries appear in the order of their first occurrence among the raw matches. */
  lemma {:induction false} DedupKeepsFirstOccurrenceOrder(matches: seq<string>)
    ensures forall i, j :: 0 <= i < j < |Dedup(matches)| ==>
      FirstIndex(matches, Dedup(matches)[i]) < FirstIndex(matches, Dedup(matches)[j])
  {
    if matches != [] {
      var p, m := matches[..|matches| - 1], matches[|matches| - 1];
      assert matches == p + [m];
      DedupKeepsFirstOccurrenceOrder(p);
      var seen := Dedup(p);
      forall x | x in p
        ensures FirstIndex(matches, x) == FirstIndex(p, x)
      {
        var k := FirstIndex(p, x);
        assert matches[..k] == p[..k];
        FirstIndexUnique(matches, x, k);
      }
      if m !in p {
        assert matches[..|p|] == p;
        FirstIndexUnique(matches, m, |p|);
      }
    }
  }

  /** Whether `c` survives `replace(/[^\d\w-]/g, '')`: an ASCII digit or letter, `_` or `-`. */
  predicate IsKeyChar(c: char) {
    '0' <= c <= '9' || 'A' <= c <= 'Z' || 'a' <= c <= 'z' || c == '_' || c == '-'
  }

  /** The string with every character that is not a key character deleted. */
  function Sanitize(s: string): (r: string)
    ensures |r| <= |s|
    ensures forall i :: 0 <= i < |r| ==> IsKeyChar(r[i])
  {
    if s == [] then []
    else (if IsKeyChar(s[0]) then [s[0]] else []) + Sanitize(s[1..])
  }

  /** Sanitising works character by character: it distributes over concatenation. */
  lemma {:induction false} SanitizeConcat(a: string, b: string)
    ensures Sanitize(a + b) == Sanitize(a) + Sanitize(b)
  {
    if a == [] {
      assert a + b == b;
    } else {
      assert (a + b)[0] == a[0];
      assert (a + b)[1..] == a[1..] + b;
      SanitizeConcat(a[1..], b);
    }
  }

  /** A single character is kept exactly when it is a key character. */
  lemma SanitizeChar(c: char)
    ensures Sanitize([c]) == if IsKeyChar(c) then [c] else []
  {
    assert [c][1..] == [];
  }

  /** A key with one bracket on each side loses the brackets. */
  lemma SanitizeBracketed(key: string)
    requires forall i :: 0 <= i < |key| ==> IsKeyChar(key[i])
    ensures Sanitize("[" + key + "]") == key
  {
    SanitizeConcat("[" + key, "]");
    SanitizeConcat("[", key);
    SanitizeChar('[');
    SanitizeChar(']');
    SanitizeKeepsKeys(key);
  }

  /** A string made of key characters only is left unchanged. */
  lemma {:induction false} SanitizeKeepsKeys(s: string)
    requires forall i :: 0 <= i < |s| ==> IsKeyChar(s[i])
    ensures Sanitize(s) == s
  {
    if s != [] {
      SanitizeKeepsKeys(s[1..]);
    }
  }

  /** Sanitising twice is sanitising once. */
  lemma SanitizeIdempotent(s: string)
    ensures Sanitize(Sanitize(s)) == Sanitize(s)
  {
    SanitizeKeepsKeys(Sanitize(s));
  }

  /** The bracketed key of the pull-request test becomes the bare key. */
  lemma SanitizeBracketedKey()
    ensures Sanitize("[TEST-1234]") == "TEST-1234"
  {
    SanitizeBracketed("TEST-1234");
    assert "[" + "TEST-1234" + "]" == "[TEST-1234]";
  }

  /** Every entry sanitised, in order. */
  function SanitizeAll(unique: seq<string>): (keys: seq<string>)
    ensures |keys| == |unique|
  {
    seq(|unique|, i requires 0 <= i < |unique| => Sanitize(unique[i]))
  }

  /** The extractor's post-processing of the raw matches: deduplicate, then sanitise. */
  function CleanMatches(matches: seq<string>): (keys: seq<string>)
  {
    SanitizeAll(Dedup(matches))
  }

  /** What `loadIssues` returns for an event, a pattern and a regular-expression engine. */
  function ExtractIssues(event: Event, pattern: string, matcher: Matcher): (keys: seq<string>)
  {
    match SearchString(event)
    case None => []
    case Some(blob) => CleanMatches(matcher(pattern, blob))
  }

  /** An unrecognised event yields nothing, whatever the engine would have matched. */
  lemma UnknownEventYieldsNothing(pattern: string, matcher: Matcher, other: Matcher)
    ensures ExtractIssues(Other, pattern, matcher) == ExtractIssues(Other, pattern, other) == []
  {
  }

  /**
   * The keys come from the raw matches: one per distinct raw match, at most
   * as many as raw matches, each made only of key characters and stable
   * under another sanitisation; every raw match is represented by its
   * sanitised form and every key is the sanitised form of a raw match.
   */
  lemma CleanMatchesSpec(matches: seq<string>)
    ensures |CleanMatches(matches)| == |set x | x in matches| <= |matches|
    ensures matches == [] ==> CleanMatches(matches) == []
    ensures forall k :: k in CleanMatches(matches) ==>
      Sanitize(k) == k && forall i :: 0 <= i < |k| ==> IsKeyChar(k[i])
    ensures forall x :: x in matches ==> Sanitize(x) in CleanMatches(matches)
    ensures forall k :: k in CleanMatches(matches) ==> exists x :: x in matches && Sanitize(x) == k
  {
    var unique := Dedup(matches);
    var keys := CleanMatches(matches);
    DedupCount(matches);
    forall k | k in keys
      ensures Sanitize(k) == k
    {
      var i :| 0 <= i < |keys| && keys[i] == k;
      SanitizeIdempotent(unique[i]);
    }
    forall x | x in matches
      ensures Sanitize(x) in keys
    {
      var i :| 0 <= i < |unique| && unique[i] == x;
      assert keys[i] == Sanitize(x);
    }
    forall k | k in keys
      ensures exists x :: x in matches && Sanitize(x) == k
    {
      var i :| 0 <= i < |keys| && keys[i] == k;
      assert unique[i] in matches;
    }
  }

  /**
   * The keys follow the order in which their raw matches first occur: an
   * earlier key is the sanitised form of a raw match whose first occurrence
   * comes earlier.
   */
  lemma CleanMatchesOrder(matches: seq<string>, i: nat, j: nat)
    requires i < j < |CleanMatches(matches)|
    ensures exists p, q :: (0 <= p < q < |matches| &&
      CleanMatches(matches)[i] == Sanitize(matches[p]) && matches[p] !in matches[..p] &&
      CleanMatches(matches)[j] == Sanitize(matches[q]) && matches[q] !in matches[..q])
  {
    var unique := Dedup(matches);
    DedupKeepsFirstOccurrenceOrder(matches);
    var p, q := FirstIndex(matches, unique[i]), FirstIndex(matches, unique[j]);
    assert CleanMatches(matches)[i] == Sanitize(matches[p]);
    assert CleanMatches(matches)[j] == Sanitize(matches[q]);
  }

  /**
   * Uniqueness holds for raw matches only: `[TEST-1]` and `TEST-1` are
   * distinct raw matches that sanitise to the same key, so the result repeats it.
   */
  lemma SanitisingAfterDedupCanRepeat()
    ensures CleanMatches(["[TEST-1]", "TEST-1"]) == ["TEST-1", "TEST-1"]
    ensures !Distinct(CleanMatches(["[TEST-1]", "TEST-1"]))
  {
    CleanBracketedAndBare("TEST-1");
    assert "[" + "TEST-1" + "]" == "[TEST-1]";
    var keys := CleanMatches(["[TEST-1]", "TEST-1"]);
    assert keys[0] == keys[1];
  }

  /** A key found once in brackets and once bare yields the key twice. */
  lemma CleanBracketedAndBare(key: string)
    requires forall i :: 0 <= i < |key| ==> IsKeyChar(key[i])
    ensures CleanMatches(["[" + key + "]", key]) == [key, key]
  {
    var raw := ["[" + key + "]", key];
    assert raw[..1][..0] == [];
    assert raw[0] != raw[1] by { assert |raw[0]| != |raw[1]|; }
    assert Dedup(raw[..1]) == raw[..1];
    assert Dedup(raw) == raw;
    SanitizeBracketed(key);
    SanitizeKeepsKeys(key);
  }

  /** A match repeated right after itself collapses: `[a, b, b]` keeps `a` and one `b`. */
  lemma DedupRepeated(a: string, b: string)
    requires a != b
    ensures Dedup([a, b, b]) == [a, b]
  {
    assert [a][..0] == [];
    assert Dedup([a]) == [a];
    assert [a, b][..1] == [a];
    assert Dedup([a, b]) == [a, b];
    assert [a, b, b][..2] == [a, b];
  }

  /** The raw matches of the pull-request test, deduplicated and then stripped of their brackets. */
  lemma CleanRepeatedKey()
    ensures CleanMatches(["[TEST-1234]", "[TEST-2]", "[TEST-2]"]) == ["TEST-1234", "TEST-2"]
  {
    CleanRepeated("[TEST-1234]", "[TEST-2]");
    SanitizeBracketedKey();
    SanitizeBracketedShortKey();
  }

  /** The short bracketed key of the pull-request test becomes the bare key. */
  lemma SanitizeBracketedShortKey()
    ensures Sanitize("[TEST-2]") == "TEST-2"
  {
    SanitizeBracketed("TEST-2");
    assert "[" + "TEST-2" + "]" == "[TEST-2]";
  }

  /** Two distinct raw matches, the second repeated, give their two sanitised forms. */
  lemma CleanRepeated(a: string, b: string)
    requires a != b
    ensures CleanMatches([a, b, b]) == [Sanitize(a), Sanitize(b)]
  {
    DedupRepeated(a, b);
  }

  /** The pull-request case of the extractor's tests: title and body are searched together. */
  lemma PullRequestExample(pattern: string, matcher: Matcher)
    requires matcher(pattern, "My PR Title [TEST-1234]" + "\n" + "My PR Body [TEST-2] [TEST-2]")
             == ["[TEST-1234]", "[TEST-2]", "[TEST-2]"]
    ensures ExtractIssues(PullRequest("My PR Title [TEST-1234]", "My PR Body [TEST-2] [TEST-2]"), pattern, matcher)
            == ["TEST-1234", "TEST-2"]
  {
    CleanRepeatedKey();
  }

  /**
   * `loadIssues`: builds the search text for the event (step by step for a
   * push), applies the pattern, and returns the deduplicated, sanitised matches.
   */
  method LoadIssues(event: Event, issueRegex: string, matcher: Matcher) returns (issues: seq<string>)
    ensures issues == ExtractIssues(event, issueRegex, matcher)
  {
    var searchString := "";
    match event {
      case PullRequest(title, body) =>
        searchString := title + "\n" + body;
      case Push(messages) =>
        var i := 0;
        while i < |messages|
          invariant 0 <= i <= |messages|
          invariant searchString == PushBlob(messages[..i])
        {
          assert messages[..i + 1][..i] == messages[..i];
          searchString := searchString + "\n" + messages[i];
          i := i + 1;
        }
        assert messages[..i] == messages;
      case Release(body) =>
        searchString := body;
      case Other =>
        return [];
    }
    var issueMatches := matcher(issueRegex, searchString);
    if issueMatches == [] {
      return [];
    }
    var uniqueMatches := Dedup(issueMatches);
    issues := SanitizeAll(uniqueMatches);
  }
}
