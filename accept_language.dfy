/**
 * The `Accept-Language` tag extraction of src/utils.ts (`parseAcceptLanguage`),
 * a simplified reading of the field defined in section 12.5.4 of RFC 9110:
 * the header is split on `,`, each entry is cut at its first `;` (dropping the
 * quality weight), and entries equal to `*` or to the empty string are dropped.
 * Nothing is trimmed, deduplicated or ranked by weight.
 */
module AcceptLanguage {

  /** Number of occurrences of `c` in `s`. */
  function Count(s: string, c: char): nat
  {
    if s == [] then 0 else (if s[0] == c then 1 else 0) + Count(s[1..], c)
  }

  /**
   * JavaScript's `s.split(sep)` for a one-character separator: the maximal
   * separator-free pieces of `s`, one more than there are separators
   * (so `""` splits into `[""]`).
   */
  function Split(s: string, sep: char): (parts: seq<string>)
    ensures |parts| == Count(s, sep) + 1
    ensures forall i :: 0 <= i < |parts| ==> sep !in parts[i]
    ensures parts[0] <= s
    ensures |parts[0]| < |s| ==> s[|parts[0]|] == sep
    decreases |s|
  {
    if s == [] then [""]
    else
      var rest := Split(s[1..], sep);
      if s[0] == sep then [""] + rest
      else [[s[0]] + rest[0]] + rest[1..]
  }

  /**
   * JavaScript's `parts.join(sep)`: the first part, then every further part
   * after its own separator.
   */
  function Join(parts: seq<string>, sep: char): (s: string)
    ensures |parts| > 0 ==> parts[0] <= s
    ensures |parts| > 1 ==> |parts[0]| < |s| && s[|parts[0]|] == sep
    ensures |s| + 1 >= |parts|
  {
    if parts == [] then ""
    else if |parts| == 1 then parts[0]
    else parts[0] + [sep] + Join(parts[1..], sep)
  }

  /** The language range of one entry: `entry.split(';')[0]`. */
  function LanguageRange(entry: string): (tag: string)
    ensures ';' !in tag
    ensures tag <= entry
    ensures |tag| < |entry| ==> entry[|tag|] == ';'
  {
    Split(entry, ';')[0]
  }

  /** The filter of `parseAcceptLanguage`: neither the wildcard `*` nor empty. */
  predicate Accepted(tag: string)
  {
    !(tag == "*" || tag == "")
  }

  /** `entries.map(entry => entry.split(';')[0])`. */
  function Ranges(entries: seq<string>): (tags: seq<string>)
    ensures |tags| == |entries|
    ensures forall i :: 0 <= i < |entries| ==> tags[i] == LanguageRange(entries[i]) && tags[i] <= entries[i]
  {
    if entries == [] then [] else [LanguageRange(entries[0])] + Ranges(entries[1..])
  }

  /** `tags.filter(tag => !(tag === '*' || tag === ''))`. */
  function KeepAccepted(tags: seq<string>): (kept: seq<string>)
    ensures |kept| <= |tags|
    ensures forall t :: t in kept <==> t in tags && Accepted(t)
  {
    if tags == [] then []
    else (if Accepted(tags[0]) then [tags[0]] else []) + KeepAccepted(tags[1..])
  }

  /** `parseAcceptLanguage(value)`. */
  function ParseAcceptLanguage(value: string): (tags: seq<string>)
    ensures |tags| <= Count(value, ',') + 1
    ensures forall t :: t in tags ==> Accepted(t) && ',' !in t && ';' !in t
  {
    KeepAccepted(Ranges(Split(value, ',')))
  }

  // ---------------------------------------------------------------------------
  // Split and Join

  /** A separator-free string splits into itself alone. */
  lemma {:induction false} SplitNoSeparator(s: string, sep: char)
    requires sep !in s
    ensures Split(s, sep) == [s]
  {
    if s != [] {
      SplitNoSeparator(s[1..], sep);
      assert s[0] != sep;
      assert s == [s[0]] + s[1..];
    }
  }

  /** A separator in the input splits it into the pieces of either side. */
  lemma {:induction false} SplitAround(a: string, b: string, sep: char)
    ensures Split(a + [sep] + b, sep) == Split(a, sep) + Split(b, sep)
  {
    if a == [] {
      assert a + [sep] + b == [sep] + b;
      assert ([sep] + b)[1..] == b;
    } else {
      assert (a + [sep] + b)[1..] == a[1..] + [sep] + b;
      SplitAround(a[1..], b, sep);
    }
  }

  /** Joining the pieces of a split gives the input back. */
  lemma {:induction false} JoinSplit(s: string, sep: char)
    ensures Join(Split(s, sep), sep) == s
  {
    if s != [] {
      var rest := Split(s[1..], sep);
      JoinSplit(s[1..], sep);
      if s[0] == sep {
        assert ([""] + rest)[1..] == rest;
        assert s == [sep] + s[1..];
      } else {
        var parts := [[s[0]] + rest[0]] + rest[1..];
        if |rest| == 1 {
          assert Join(parts, sep) == [s[0]] + rest[0];
        } else {
          assert parts[1..] == rest[1..];
          assert Join(parts, sep) == [s[0]] + (rest[0] + [sep] + Join(rest[1..], sep));
        }
        assert s == [s[0]] + s[1..];
      }
    }
  }

  /** Splitting a join of separator-free pieces gives the pieces back. */
  lemma {:induction false} SplitJoin(parts: seq<string>, sep: char)
    requires |parts| >= 1
    requires forall i :: 0 <= i < |parts| ==> sep !in parts[i]
    ensures Split(Join(parts, sep), sep) == parts
  {
    SplitNoSeparator(parts[0], sep);
    if |parts| > 1 {
      SplitJoin(parts[1..], sep);
      SplitAround(parts[0], Join(parts[1..], sep), sep);
      assert parts == [parts[0]] + parts[1..];
    }
  }

  // ---------------------------------------------------------------------------
  // Language ranges and the filter

  /** The language range of an entry is the text before its first `;`. */
  lemma LanguageRangeBeforeWeight(tag: string, weight: string)
    requires ';' !in tag
    ensures LanguageRange(tag + ";" + weight) == tag
  {
    SplitAround(tag, weight, ';');
    SplitNoSeparator(tag, ';');
  }

  /** An entry without `;` is its own language range. */
  lemma LanguageRangeOfPlainTag(tag: string)
    requires ';' !in tag
    ensures LanguageRange(tag) == tag
  {
    SplitNoSeparator(tag, ';');
  }

  lemma {:induction false} RangesAppend(a: seq<string>, b: seq<string>)
    ensures Ranges(a + b) == Ranges(a) + Ranges(b)
  {
    if a != [] {
      assert (a + b)[0] == a[0];
      assert (a + b)[1..] == a[1..] + b;
      RangesAppend(a[1..], b);
      calc {
        Ranges(a + b);
        [LanguageRange(a[0])] + Ranges(a[1..] + b);
        [LanguageRange(a[0])] + (Ranges(a[1..]) + Ranges(b));
        ([LanguageRange(a[0])] + Ranges(a[1..])) + Ranges(b);
      }
    } else {
      assert a + b == b;
    }
  }

  lemma {:induction false} KeepAcceptedAppend(a: seq<string>, b: seq<string>)
    ensures KeepAccepted(a + b) == KeepAccepted(a) + KeepAccepted(b)
  {
    if a != [] {
      var head := if Accepted(a[0]) then [a[0]] else [];
      assert (a + b)[0] == a[0];
      assert (a + b)[1..] == a[1..] + b;
      KeepAcceptedAppend(a[1..], b);
      calc {
        KeepAccepted(a + b);
        head + KeepAccepted(a[1..] + b);
        head + (KeepAccepted(a[1..]) + KeepAccepted(b));
        (head + KeepAccepted(a[1..])) + KeepAccepted(b);
      }
    } else {
      assert a + b == b;
    }
  }

  lemma {:induction false} RangesOfPlainTags(tags: seq<string>)
    requires forall i :: 0 <= i < |tags| ==> ';' !in tags[i]
    ensures Ranges(tags) == tags
  {
    if tags != [] {
      LanguageRangeOfPlainTag(tags[0]);
      RangesOfPlainTags(tags[1..]);
    }
  }

  lemma {:induction false} KeepAllAccepted(tags: seq<string>)
    requires forall i :: 0 <= i < |tags| ==> Accepted(tags[i])
    ensures KeepAccepted(tags) == tags
  {
    if tags != [] {
      KeepAllAccepted(tags[1..]);
    }
  }

  // ---------------------------------------------------------------------------
  // parseAcceptLanguage: an entry-wise, order-preserving filter

  /** One entry (no `,`) yields its language range, unless that is `*` or empty. */
  lemma ParseSingleEntry(entry: string)
    requires ',' !in entry
    ensures ParseAcceptLanguage(entry) ==
            if Accepted(LanguageRange(entry)) then [LanguageRange(entry)] else []
  {
    SplitNoSeparator(entry, ',');
  }

  /**
   * The entries on either side of a `,` are parsed independently and their
   * tags keep their order: together with ParseSingleEntry this determines
   * the result for every header.
   */
  lemma ParseAround(a: string, b: string)
    ensures ParseAcceptLanguage(a + "," + b) == ParseAcceptLanguage(a) + ParseAcceptLanguage(b)
  {
    SplitAround(a, b, ',');
    RangesAppend(Split(a, ','), Split(b, ','));
    KeepAcceptedAppend(Ranges(Split(a, ',')), Ranges(Split(b, ',')));
  }

  /** Every parsed tag is the language range of some comma-separated entry, and every accepted range is kept. */
  lemma ParseKeepsExactlyAcceptedRanges(value: string, t: string)
    ensures t in ParseAcceptLanguage(value) <==>
            Accepted(t) && exists i :: 0 <= i < |Split(value, ',')| && t == LanguageRange(Split(value, ',')[i])
  {
    var entries := Split(value, ',');
    var ranges := Ranges(entries);
    if Accepted(t) && exists i :: 0 <= i < |entries| && t == LanguageRange(entries[i]) {
      var i :| 0 <= i < |entries| && t == LanguageRange(entries[i]);
      assert ranges[i] == t;
    }
    assert ParseAcceptLanguage(value) == KeepAccepted(ranges);
    if t in ParseAcceptLanguage(value) {
      assert t in ranges;
      var i :| 0 <= i < |ranges| && ranges[i] == t;
      assert t == LanguageRange(entries[i]);
      assert Accepted(t);
      assert exists j :: 0 <= j < |Split(value, ',')| && t == LanguageRange(Split(value, ',')[j]);
    }
  }

  /** Parsing the tags of a `,`-join of clean tags gives those tags back. */
  lemma ParseJoin(tags: seq<string>)
    requires forall i :: 0 <= i < |tags| ==> Accepted(tags[i]) && ',' !in tags[i] && ';' !in tags[i]
    ensures ParseAcceptLanguage(Join(tags, ',')) == tags
  {
    if tags == [] {
      SplitNoSeparator("", ',');
      LanguageRangeOfPlainTag("");
    } else {
      SplitJoin(tags, ',');
      RangesOfPlainTags(tags);
      KeepAllAccepted(tags);
    }
  }

  /** Round trip: re-parsing the `,`-join of a parse result gives the same result. */
  lemma ParseJoinParse(value: string)
    ensures ParseAcceptLanguage(Join(ParseAcceptLanguage(value), ',')) == ParseAcceptLanguage(value)
  {
    var tags := ParseAcceptLanguage(value);
    assert forall i :: 0 <= i < |tags| ==> tags[i] in tags;
    ParseJoin(tags);
  }

  // ---------------------------------------------------------------------------
  // The documented examples

  /** A tag that a header can carry through the parser unchanged. */
  predicate Clean(tag: string)
  {
    Accepted(tag) && ',' !in tag && ';' !in tag
  }

  /** A clean tag on its own parses to itself. */
  lemma ParsePlainEntry(tag: string)
    requires Clean(tag)
    ensures ParseAcceptLanguage(tag) == [tag]
  {
    ParseSingleEntry(tag);
    LanguageRangeOfPlainTag(tag);
  }

  /** A clean tag followed by `;` and a weight parses to the tag alone. */
  lemma ParseWeightedEntry(tag: string, weight: string)
    requires Clean(tag) && ',' !in weight
    ensures ParseAcceptLanguage(tag + ";" + weight) == [tag]
  {
    ParseSingleEntry(tag + ";" + weight);
    LanguageRangeBeforeWeight(tag, weight);
  }

  /** Three entries: each is parsed independently, in order. */
  lemma ParseAroundTwice(a: string, x: string, y: string)
    ensures ParseAcceptLanguage(a + "," + x + "," + y) ==
            ParseAcceptLanguage(a) + ParseAcceptLanguage(x) + ParseAcceptLanguage(y)
  {
    var tail := x + "," + y;
    assert a + "," + x + "," + y == a + "," + tail;
    var pa, px, py := ParseAcceptLanguage(a), ParseAcceptLanguage(x), ParseAcceptLanguage(y);
    calc {
      ParseAcceptLanguage(a + "," + tail);
      { ParseAround(a, tail); }
      pa + ParseAcceptLanguage(tail);
      { ParseAround(x, y); }
      pa + (px + py);
      pa + px + py;
    }
  }

  /** `a,b;wb,c;wc` parses to `[a, b, c]`: the weights are dropped. */
  lemma ParseThreeEntries(a: string, b: string, wb: string, c: string, wc: string)
    requires Clean(a) && Clean(b) && Clean(c) && ',' !in wb && ',' !in wc
    ensures ParseAcceptLanguage(a + "," + (b + ";" + wb) + "," + (c + ";" + wc)) == [a, b, c]
  {
    var x, y := b + ";" + wb, c + ";" + wc;
    ParseAroundTwice(a, x, y);
    ParsePlainEntry(a);
    ParseWeightedEntry(b, wb);
    ParseWeightedEntry(c, wc);
    ConcatSingletons(ParseAcceptLanguage(a), ParseAcceptLanguage(x), ParseAcceptLanguage(y), a, b, c);
  }

  /** Three one-element lists in a row. */
  lemma ConcatSingletons<T>(p: seq<T>, q: seq<T>, r: seq<T>, a: T, b: T, c: T)
    requires p == [a] && q == [b] && r == [c]
    ensures p + q + r == [a, b, c]
  {
  }

  /** `a,b` parses to `[a, b]`. */
  lemma ParseTwoEntries(a: string, b: string)
    requires Clean(a) && Clean(b)
    ensures ParseAcceptLanguage(a + "," + b) == [a, b]
  {
    ParseAround(a, b);
    ParsePlainEntry(a);
    ParsePlainEntry(b);
  }

  lemma ParseWeightedExample()
    ensures ParseAcceptLanguage("ja,en-US;q=0.7,en;q=0.3") == ["ja", "en-US", "en"]
  {
    assert "ja" + "," + ("en-US" + ";" + "q=0.7") + "," + ("en" + ";" + "q=0.3") == "ja,en-US;q=0.7,en;q=0.3";
    ParseThreeEntries("ja", "en-US", "q=0.7", "en", "q=0.3");
  }

  lemma ParseUnweightedExample()
    ensures ParseAcceptLanguage("ja,en-US") == ["ja", "en-US"]
  {
    assert "ja" + "," + "en-US" == "ja,en-US";
    ParseTwoEntries("ja", "en-US");
  }

  lemma ParseSingleTagExample()
    ensures ParseAcceptLanguage("ja") == ["ja"]
  {
    ParsePlainEntry("ja");
  }

  lemma ParseWildcardExample()
    ensures ParseAcceptLanguage("*") == []
  {
    ParseSingleEntry("*");
    LanguageRangeOfPlainTag("*");
  }

  lemma ParseEmptyExample()
    ensures ParseAcceptLanguage("") == []
  {
    ParseSingleEntry("");
    LanguageRangeOfPlainTag("");
  }

  /** Entries are not trimmed: the blank after a `,` stays part of the next tag. */
  lemma ParseUntrimmedExample()
    ensures ParseAcceptLanguage("en, ja") == ["en", " ja"]
  {
    assert "en" + "," + " ja" == "en, ja";
    ParseTwoEntries("en", " ja");
  }

  /** The header of the detector example: its first tag is `en-US`. */
  lemma ParseDetectorExample()
    ensures ParseAcceptLanguage("en-US,en;q=0.9,ja;q=0.8") == ["en-US", "en", "ja"]
  {
    assert "en-US" + "," + ("en" + ";" + "q=0.9") + "," + ("ja" + ";" + "q=0.8") == "en-US,en;q=0.9,ja;q=0.8";
    ParseThreeEntries("en-US", "en", "q=0.9", "ja", "q=0.8");
  }
}
