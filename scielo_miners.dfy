/**
  The text helpers of the two Scielo miners,
  pubsub_workers/worker/miners/scielo.py and
  pubsub_workers_integrated/worker/miners/scielo_miner.py: tag lists,
  author names, keyword lines, body paragraphs, affiliations and
  references; and, for the first of them, `gather` and `GetArticle`,
  which rename and regroup the result map.
 */
module ScieloMiners {
  import opened Wrappers
  import opened Text
  import opened Values

  /** `<tag>`. */
  function OpenTag(tag: string): string {
    "<" + tag + ">"
  }

  /** `</tag>`. */
  function CloseTag(tag: string): string {
    "</" + tag + ">"
  }

  /** The elements one after another, each stripped and wrapped in the tag. */
  function TagAll(strs: seq<string>, tag: string): string {
    if strs == [] then [] else OpenTag(tag) + Strip(strs[0]) + CloseTag(tag) + TagAll(strs[1..], tag)
  }

  /** `TagList(str_list, tag)`: the tagged elements, or None for a missing or empty list. */
  function TagList(strs: Option<seq<string>>, tag: string): (r: Option<string>)
    ensures r.None? <==> strs.None? || strs.value == []
  {
    if strs.None? || strs.value == [] then None else Some(TagAll(strs.value, tag))
  }

  /**
    Reading a tag list back: after each `<tag>`, the text up to the next
    `<`, which must open `</tag>`; None for text of another shape.
   */
  function Untag(s: string, tag: string): Option<seq<string>>
    decreases |s|
  {
    var open, close := OpenTag(tag), CloseTag(tag);
    if s == [] then Some([])
    else if !StartsWith(s, open) then None
    else
      var body := s[|open|..];
      match IndexOf(body, "<")
      case None => None
      case Some(k) =>
        var rest := body[k..];
        if !StartsWith(rest, close) then None
        else
          match Untag(rest[|close|..], tag)
          case None => None
          case Some(items) => Some([body[..k]] + items)
  }

  /** Every element stripped. */
  function Stripped(strs: seq<string>): (r: seq<string>)
    ensures |r| == |strs|
  {
    if strs == [] then [] else [Strip(strs[0])] + Stripped(strs[1..])
  }

  /** `strip` keeps a character out that was not there. */
  lemma StripKeepsAbsent(s: string, c: char)
    requires c !in s
    ensures c !in Strip(s)
  {
    StripWithSpec(s, IsSpace);
  }

  /** One tagged element without `<` in front of a tag list reads back as that element followed by the list. */
  lemma UntagStep(t: string, tag: string, tail: string)
    requires '<' !in t
    ensures Untag(OpenTag(tag) + t + CloseTag(tag) + tail, tag) ==
      if Untag(tail, tag).Some? then Some([t] + Untag(tail, tag).value) else None
  {
    var open, close := OpenTag(tag), CloseTag(tag);
    var s := open + t + close + tail;
    var body := t + close + tail;
    assert s[..|open|] == open;
    assert s[|open|..] == body;
    var after := "/" + tag + ">" + tail;
    assert body == t + ['<'] + after;
    IndexOfCharAfter(t, '<', after);
    assert body[..|t|] == t;
    assert body[|t|..] == close + tail;
    assert (close + tail)[..|close|] == close;
    assert (close + tail)[|close|..] == tail;
  }

  /**
    A tag list of elements without `<` reads back as the stripped
    elements, in order: nothing is lost or reordered between the tags.
   */
  lemma {:induction false} UntagTagAll(strs: seq<string>, tag: string)
    requires forall s :: s in strs ==> '<' !in s
    ensures Untag(TagAll(strs, tag), tag) == Some(Stripped(strs))
  {
    if strs != [] {
      var t := Strip(strs[0]);
      StripKeepsAbsent(strs[0], '<');
      UntagTagAll(strs[1..], tag);
      UntagStep(t, tag, TagAll(strs[1..], tag));
    }
  }

  /** A non-empty list of elements without `<` gives a tag list that reads back as them, stripped. */
  lemma TagListRoundTrip(strs: seq<string>, tag: string)
    requires strs != [] && forall s :: s in strs ==> '<' !in s
    ensures TagList(Some(strs), tag).Some?
    ensures Untag(TagList(Some(strs), tag).value, tag) == Some(Stripped(strs))
  {
    UntagTagAll(strs, tag);
  }

  /**
    `__format_author`: the comma-separated parts in reverse order, joined
    by spaces, title-cased and stripped.
   */
  function FormatAuthor(author: string): string {
    Strip(Title(Join(" ", Reverse(Split(author, ",")))))
  }

  /** Title-casing never introduces a character that is not a letter. */
  lemma TitleKeepsAbsent(s: string, c: char)
    requires !IsLetter(c) && c !in s
    ensures c !in Title(s)
  {
    forall i | 0 <= i < |s| ensures Title(s)[i] != c {
      if !IsLetter(s[i]) {
        assert Title(s)[i] == s[i];
      }
    }
  }

  /** A formatted author name contains no comma. */
  lemma FormatAuthorNoComma(author: string)
    ensures ',' !in FormatAuthor(author)
  {
    var parts := Split(author, ",");
    var rev := Reverse(parts);
    SplitPiecesFree(author, ",");
    forall p | p in rev ensures ',' !in p {
      var i :| 0 <= i < |rev| && rev[i] == p;
      assert parts[|parts| - 1 - i] == p;
      ContainsChar(p, ',');
    }
    JoinFree(" ", rev, ',');
    var j := Join(" ", rev);
    TitleKeepsAbsent(j, ',');
    StripKeepsAbsent(Title(j), ',');
  }

  /** "Last,First" becomes "First Last", title-cased and stripped. */
  lemma FormatAuthorSwap(last: string, first: string)
    requires ',' !in last && ',' !in first
    ensures FormatAuthor(last + "," + first) == Strip(Title(first + " " + last))
  {
    SplitJoin([last, first], ',');
    assert Join(",", [last, first]) == last + "," + first;
    assert Reverse([last, first]) == [first, last];
    assert Join(" ", [first, last]) == first + " " + last;
  }

  /** The leading labels `__parse_keywords` removes, checked in this order. */
  const KeyStrings: seq<string> :=
    ["keywords", "key words", "palavras-chave", "palavras chave", "index terms", "descritores"]

  /** One pass of the label loop: the label `prefix` is cut off when the lower-cased text starts with it. */
  function DropLabel(keys: string, prefix: string): (r: string)
    ensures |r| <= |keys| && r == keys[|keys| - |r|..]
  {
    if StartsWith(Lower(keys), prefix) then keys[|prefix|..] else keys
  }

  /** The text after the label loop has passed over `labels`: a suffix of the input. */
  function DropLabels(keys: string, labels: seq<string>): (r: string)
    ensures |r| <= |keys| && r == keys[|keys| - |r|..]
  {
    if labels == [] then keys
    else DropLabel(DropLabels(keys, labels[..|labels| - 1]), labels[|labels| - 1])
  }

  /** The label loop one label further. */
  lemma DropLabelsSnoc(keys: string, labels: seq<string>, prefix: string)
    ensures DropLabels(keys, labels + [prefix]) == DropLabel(DropLabels(keys, labels), prefix)
  {
    assert (labels + [prefix])[..|labels|] == labels;
  }

  /** `keys.replace(':', ' ').replace(';', ',').split(',')`. */
  function SplitKeys(keys: string): seq<string> {
    Split(ReplaceAll(ReplaceAll(keys, ":", " "), ";", ","), ",")
  }

  /** No keyword holds a comma, a semicolon or a colon. */
  lemma KeywordsClean(keys: string)
    ensures forall k :: k in SplitKeys(keys) ==> ',' !in k && ';' !in k && ':' !in k
  {
    var s1 := ReplaceAll(keys, ":", " ");
    ReplaceCharRemoves(keys, ':', " ");
    var s2 := ReplaceAll(s1, ";", ",");
    ReplaceCharRemoves(s1, ';', ",");
    ReplaceKeepsAbsent(s1, ";", ",", ':');
    SplitPiecesFree(s2, ",");
    SplitPieceChars(s2, ",", ';');
    SplitPieceChars(s2, ",", ':');
    forall k | k in SplitKeys(keys) ensures ',' !in k {
      ContainsChar(k, ',');
    }
  }

  /** Joining the keywords with commas gives back the mapped text: the split loses nothing. */
  lemma KeywordsRejoin(keys: string)
    ensures Join(",", SplitKeys(keys)) == ReplaceAll(ReplaceAll(keys, ":", " "), ";", ",")
  {
    JoinSplit(ReplaceAll(ReplaceAll(keys, ":", " "), ";", ","), ",");
  }

  /** The label loop of `__parse_keywords` over `labels`, in order. */
  method DropAll(keys: string, labels: seq<string>) returns (k: string)
    ensures k == DropLabels(keys, labels)
  {
    k := keys;
    for i := 0 to |labels|
      invariant k == DropLabels(keys, labels[..i])
    {
      assert labels[..i + 1] == labels[..i] + [labels[i]];
      DropLabelsSnoc(keys, labels[..i], labels[i]);
      if StartsWith(Lower(k), labels[i]) {
        k := k[|labels[i]|..];
      }
    }
    assert labels[..|labels|] == labels;
  }

  /** Cutting labels off keeps a character out that the text lacks. */
  lemma DropLabelsWithout(keys: string, labels: seq<string>, c: char)
    requires c !in keys
    ensures c !in DropLabels(keys, labels)
  {
    var rest := DropLabels(keys, labels);
    var d := |keys| - |rest|;
    assert rest == keys[d..];
    forall i | 0 <= i < |rest| ensures rest[i] != c {
      assert rest[i] == keys[d + i];
    }
  }

  /** A character other than a space or a comma that the text lacks is in no keyword of it. */
  lemma SplitKeysWithout(text: string, c: char)
    requires c !in text && c != ' ' && c != ','
    ensures forall k :: k in SplitKeys(text) ==> c !in k
  {
    var s1 := ReplaceAll(text, ":", " ");
    ReplaceKeepsAbsent(text, ":", " ", c);
    ReplaceKeepsAbsent(s1, ";", ",", c);
    SplitPieceChars(ReplaceAll(s1, ";", ","), ",", c);
  }

  /**
    `__parse_keywords(keys)`: None for a missing or empty text; otherwise
    the labels are cut off in order and the rest split into keywords.
   */
  method ParseKeywords(keys: Option<string>) returns (r: Option<seq<string>>)
    ensures r.None? <==> keys.None? || keys.value == []
    ensures r.Some? ==> r.value == SplitKeys(DropLabels(keys.value, KeyStrings))
  {
    if keys.None? || keys.value == [] {
      return None;
    }
    var k := DropAll(keys.value, KeyStrings);
    r := Some(SplitKeys(k));
  }

  /**
    scielo.py `get_keywords`: the parsed keywords as a tag list, for every
    line; a text without `<` reads back as its keywords, stripped.
   */
  method GetKeywords(keys: Option<string>) returns (r: Option<string>)
    ensures r.None? <==> keys.None? || keys.value == []
    ensures r.Some? ==> r == TagList(Some(SplitKeys(DropLabels(keys.value, KeyStrings))), "keyword")
    ensures r.Some? && '<' !in keys.value ==>
      Untag(r.value, "keyword") == Some(Stripped(SplitKeys(DropLabels(keys.value, KeyStrings))))
  {
    var parsed := ParseKeywords(keys);
    r := TagList(parsed, "keyword");
    if r.Some? && '<' !in keys.value {
      DropLabelsWithout(keys.value, KeyStrings, '<');
      SplitKeysWithout(DropLabels(keys.value, KeyStrings), '<');
      TagListRoundTrip(parsed.value, "keyword");
    }
  }

  /**
    scielo_miner.py `get_keywords`: the keywords handed to the tag
    builder, or None when parsing gives None.
   */
  method GetKeywordsIntegrated(keys: Option<string>) returns (r: Option<seq<string>>)
    ensures r.None? <==> keys.None? || keys.value == []
    ensures r.Some? ==> r.value != [] && r.value == SplitKeys(DropLabels(keys.value, KeyStrings))
  {
    var parsed := ParseKeywords(keys);
    if parsed.Some? && parsed.value != [] {
      r := parsed;
    } else {
      r := None;
    }
  }

  /** The paragraph texts that mark the start of the abstract, lower-cased. */
  const Headers: seq<string> := ["resumo", "abstract", "resumen"]

  /** The position of the last header paragraph, if there is one. */
  function LastHeader(body: seq<string>): (r: Option<nat>)
    ensures r.Some? ==> r.value < |body| && Lower(body[r.value]) in Headers
    ensures r.Some? ==> forall j :: r.value < j < |body| ==> Lower(body[j]) !in Headers
    ensures r.None? ==> forall j :: 0 <= j < |body| ==> Lower(body[j]) !in Headers
  {
    if body == [] then None
    else if Lower(body[|body| - 1]) in Headers then Some(|body| - 1)
    else LastHeader(body[..|body| - 1])
  }

  /** A paragraph with `&nbsp;` made a space, then stripped. */
  function CleanParagraph(p: string): string {
    Strip(ReplaceAll(p, "&nbsp;", " "))
  }

  /** `all(char == " " for char in p)`, true of the empty text. */
  predicate AllSpaces(p: string) {
    forall i :: 0 <= i < |p| ==> p[i] == ' '
  }

  /** The paragraphs as `clean` leaves them, those left as spaces only dropped, in order. */
  function KeptWith(ps: seq<string>, clean: string -> string): (r: seq<string>)
    ensures |r| <= |ps|
  {
    if ps == [] then []
    else
      var q := clean(ps[|ps| - 1]);
      KeptWith(ps[..|ps| - 1], clean) + (if AllSpaces(q) then [] else [q])
  }

  /** The cleaned paragraphs that are not all spaces, in order. */
  function Cleaned(ps: seq<string>): (r: seq<string>)
    ensures |r| <= |ps|
  {
    KeptWith(ps, CleanParagraph)
  }

  /** What `get_body` returns for the body paragraphs. */
  function BodyText(body: seq<string>): Option<string> {
    if |body| == 1 then Some(body[0])
    else
      match LastHeader(body)
      case None => None
      case Some(h) =>
        var c := Cleaned(body[..h]);
        if c == [] then None else Some(Join("\n", c))
  }

  /**
    `get_body`: a single paragraph is returned as it is; otherwise the
    paragraphs before the last header are cleaned and joined by newlines.
    Without a header the NameError is caught and nothing is kept.
   */
  method GetBody(body: seq<string>) returns (r: Option<string>)
    ensures r == BodyText(body)
  {
    if |body| == 1 {
      return Some(body[0]);
    }
    var cleaned: seq<string> := [];
    var abstractIndex: Option<nat> := None;
    for idx := 0 to |body|
      invariant abstractIndex == LastHeader(body[..idx])
    {
      assert body[..idx + 1][..idx] == body[..idx];
      if Lower(body[idx]) in Headers {
        abstractIndex := Some(idx);
      }
    }
    assert body[..|body|] == body;
    if abstractIndex.Some? {
      var h := abstractIndex.value;
      for j := 0 to h
        invariant cleaned == Cleaned(body[..j])
      {
        assert body[..j + 1][..j] == body[..j];
        var p := CleanParagraph(body[j]);
        if !AllSpaces(p) {
          cleaned := cleaned + [p];
        }
      }
    }
    if cleaned == [] {
      return None;
    }
    r := Some(Join("\n", cleaned));
  }

  /** Nothing is kept exactly when `clean` leaves every paragraph as spaces only. */
  lemma {:induction false} KeptWithEmpty(ps: seq<string>, clean: string -> string)
    ensures KeptWith(ps, clean) == [] <==> forall j :: 0 <= j < |ps| ==> AllSpaces(clean(ps[j]))
  {
    if ps != [] {
      var init := ps[..|ps| - 1];
      KeptWithEmpty(init, clean);
      assert forall j :: 0 <= j < |init| ==> init[j] == ps[j];
    }
  }

  /** Every kept paragraph is not all spaces and is what `clean` made of one of the paragraphs. */
  lemma {:induction false} KeptWithFrom(ps: seq<string>, clean: string -> string)
    ensures forall q :: q in KeptWith(ps, clean) ==>
      !AllSpaces(q) && exists j :: 0 <= j < |ps| && q == clean(ps[j])
  {
    if ps != [] {
      var init := ps[..|ps| - 1];
      KeptWithFrom(init, clean);
      forall q | q in KeptWith(ps, clean)
        ensures !AllSpaces(q) && exists j :: 0 <= j < |ps| && q == clean(ps[j])
      {
        if q in KeptWith(init, clean) {
          var j :| 0 <= j < |init| && q == clean(init[j]);
          assert init[j] == ps[j];
        } else {
          assert q == clean(ps[|ps| - 1]);
        }
      }
    }
  }

  /** Nothing survives cleaning exactly when every paragraph cleans to spaces only. */
  lemma CleanedEmpty(ps: seq<string>)
    ensures Cleaned(ps) == [] <==> forall j :: 0 <= j < |ps| ==> AllSpaces(CleanParagraph(ps[j]))
  {
    KeptWithEmpty(ps, CleanParagraph);
  }

  /** Non-empty, with no whitespace at either end. */
  predicate Trimmed(q: string) {
    q != [] && !IsSpace(q[0]) && !IsSpace(q[|q| - 1])
  }

  /** A paragraph that does not clean to spaces only cleans to a trimmed text. */
  lemma CleanParagraphTrimmed(p: string)
    requires !AllSpaces(CleanParagraph(p))
    ensures Trimmed(CleanParagraph(p))
  {
    StripWithSpec(ReplaceAll(p, "&nbsp;", " "), IsSpace);
  }

  /** When `clean` trims every paragraph it does not blank, every kept paragraph is trimmed. */
  lemma KeptWithTrimmed(ps: seq<string>, clean: string -> string)
    requires forall j :: 0 <= j < |ps| && !AllSpaces(clean(ps[j])) ==> Trimmed(clean(ps[j]))
    ensures forall q :: q in KeptWith(ps, clean) ==> Trimmed(q)
  {
    KeptWithFrom(ps, clean);
  }

  /** Every kept paragraph is the cleaning of one of the paragraphs. */
  lemma CleanedFrom(ps: seq<string>)
    ensures forall q :: q in Cleaned(ps) ==> exists j :: 0 <= j < |ps| && q == CleanParagraph(ps[j])
  {
    KeptWithFrom(ps, CleanParagraph);
  }

  /** Every kept paragraph is non-empty and has no whitespace at its ends. */
  lemma CleanedTrimmed(ps: seq<string>)
    ensures forall q :: q in Cleaned(ps) ==> Trimmed(q)
  {
    forall j | 0 <= j < |ps| && !AllSpaces(CleanParagraph(ps[j])) ensures Trimmed(CleanParagraph(ps[j])) {
      CleanParagraphTrimmed(ps[j]);
    }
    KeptWithTrimmed(ps, CleanParagraph);
  }

  /** Cleaning keeps out a character other than a space that no paragraph holds. */
  lemma CleanedWithout(ps: seq<string>, c: char)
    requires c != ' ' && forall j :: 0 <= j < |ps| ==> c !in ps[j]
    ensures forall q :: q in Cleaned(ps) ==> c !in q
  {
    KeptWithFrom(ps, CleanParagraph);
    forall q | q in Cleaned(ps) ensures c !in q {
      var j :| 0 <= j < |ps| && q == CleanParagraph(ps[j]);
      ReplaceKeepsAbsent(ps[j], "&nbsp;", " ", c);
      StripKeepsAbsent(ReplaceAll(ps[j], "&nbsp;", " "), c);
    }
  }

  /**
    `get_body` gives None exactly when there are other than one paragraph
    and either no header or only blank paragraphs before the last one.
   */
  lemma BodyTextNone(body: seq<string>)
    ensures BodyText(body).None? <==>
      |body| != 1 && (LastHeader(body).None? ||
        forall j :: 0 <= j < LastHeader(body).value ==> AllSpaces(CleanParagraph(body[j])))
  {
    if |body| != 1 && LastHeader(body).Some? {
      var h := LastHeader(body).value;
      CleanedEmpty(body[..h]);
      assert forall j :: 0 <= j < h ==> body[..h][j] == body[j];
    }
  }

  /** Kept paragraphs of paragraphs without line breaks come back from splitting their join at the newlines. */
  lemma CleanedSplits(ps: seq<string>)
    requires Cleaned(ps) != [] && forall j :: 0 <= j < |ps| ==> '\n' !in ps[j]
    ensures Split(Join("\n", Cleaned(ps)), "\n") == Cleaned(ps)
  {
    CleanedWithout(ps, '\n');
    SplitJoin(Cleaned(ps), '\n');
  }

  /**
    For paragraphs without line breaks, the body text splits at its
    newlines back into the kept paragraphs.
   */
  lemma BodyTextSplits(body: seq<string>)
    requires |body| != 1 && BodyText(body).Some?
    requires forall j :: 0 <= j < |body| ==> '\n' !in body[j]
    ensures LastHeader(body).Some?
    ensures Split(BodyText(body).value, "\n") == Cleaned(body[..LastHeader(body).value])
  {
    var h := LastHeader(body).value;
    CleanedSplits(body[..h]);
  }

  /** The characters `strip('0123456789. ')` removes. */
  predicate RefTrim(c: char) {
    IsDigit(c) || c == '.' || c == ' '
  }

  const LinksMarker := "[ Links ]"

  /** One reference: the `[ Links ]` markers removed, then digits, dots and spaces stripped from both ends. */
  function Reference(r: string): string {
    StripWith(ReplaceAll(r, LinksMarker, ""), RefTrim)
  }

  /** scielo_miner.py `get_references`: every reference cleaned, in order. */
  function References(refs: seq<string>): (rs: seq<string>)
    ensures |rs| == |refs| && forall i :: 0 <= i < |refs| ==> rs[i] == Reference(refs[i])
  {
    seq(|refs|, i requires 0 <= i < |refs| => Reference(refs[i]))
  }

  /** scielo.py `get_references`: the cleaned references as an `item` tag list. */
  function ReferencesTagged(refs: seq<string>): (r: Option<string>)
    ensures r.None? <==> refs == []
  {
    TagList(Some(References(refs)), "item")
  }

  /** A cleaned reference starts and ends with a character that is not a digit, a dot or a space. */
  lemma ReferenceEdges(r: string)
    ensures var t := Reference(r); t != [] ==> !RefTrim(t[0]) && !RefTrim(t[|t| - 1])
  {
    StripWithSpec(ReplaceAll(r, LinksMarker, ""), RefTrim);
  }

  /** A reference with one marker between text free of `[` loses exactly the marker before stripping. */
  lemma ReferenceOfMarked(a: string, b: string)
    requires '[' !in a && '[' !in b
    ensures Reference(a + LinksMarker + b) == StripWith(a + b, RefTrim)
  {
    SepFirstByChar(a, LinksMarker);
    if Contains(b, LinksMarker) {
      ContainsFirstChar(b, LinksMarker);
    }
    SplitJoinSep([a, b], LinksMarker);
    assert Join(LinksMarker, [a, b]) == a + LinksMarker + b;
    assert Join("", [a, b]) == a + b;
  }

  const SupClose := "</sup>"

  /** The last piece of `s.split(sep)`. */
  function LastPieceOf(s: string, sep: string): string
    requires sep != []
  {
    var ps := Split(s, sep);
    ps[|ps| - 1]
  }

  /** `o.split('</sup>')[-1]`: the text after the last `</sup>`. */
  function Organization(o: string): string {
    LastPieceOf(o, SupClose)
  }

  /** The last piece holds no separator. */
  lemma LastPieceFree(s: string, sep: string)
    requires sep != []
    ensures !Contains(LastPieceOf(s, sep), sep)
  {
    var ps := Split(s, sep);
    SplitPiecesFree(s, sep);
    assert ps[|ps| - 1] in ps;
  }

  /** Without the separator, the last piece is the whole text. */
  lemma LastPieceWhole(s: string, sep: string)
    requires sep != [] && !Contains(s, sep)
    ensures LastPieceOf(s, sep) == s
  {
  }

  /** Past the first separator the text has the same last piece. */
  lemma LastPieceStep(s: string, sep: string, i: nat)
    requires sep != [] && IndexOf(s, sep) == Some(i)
    ensures i + |sep| <= |s|
    ensures LastPieceOf(s, sep) == LastPieceOf(s[i + |sep|..], sep)
  {
    assert OccursAt(s, sep, i);
    var rest := s[i + |sep|..];
    var ps, qs := Split(s, sep), Split(rest, sep);
    assert ps == [s[..i]] + qs;
    assert ps[|ps| - 1] == qs[|qs| - 1];
  }

  /** A suffix of a suffix is a suffix. */
  lemma SuffixOfSuffix(s: string, i: nat, m: nat)
    requires i <= |s| && m <= |s| - i
    ensures s[|s| - m..] == s[i..][|s| - i - m..]
  {
  }

  /** When the separator occurs, the last piece directly follows an occurrence that ends the text. */
  lemma {:induction false} LastPieceEnds(s: string, sep: string)
    requires sep != [] && Contains(s, sep)
    ensures var t := LastPieceOf(s, sep); |t| + |sep| <= |s| && s[|s| - |t| - |sep|..] == sep + t
    decreases |s|
  {
    var i := IndexOf(s, sep).value;
    LastPieceStep(s, sep, i);
    var rest := s[i + |sep|..];
    var t := LastPieceOf(s, sep);
    if Contains(rest, sep) {
      LastPieceEnds(rest, sep);
      SuffixOfSuffix(s, i + |sep|, |t| + |sep|);
    } else {
      LastPieceWhole(rest, sep);
      assert OccursAt(s, sep, i);
      assert s[i..] == s[i..i + |sep|] + rest;
    }
  }

  /**
    An affiliation is the text after the last `</sup>`: it holds no
    `</sup>`, is the whole entry when there is none, and otherwise
    directly follows the entry's last `</sup>`.
   */
  lemma OrganizationSpec(o: string)
    ensures !Contains(Organization(o), SupClose)
    ensures !Contains(o, SupClose) ==> Organization(o) == o
    ensures Contains(o, SupClose) ==> var t := Organization(o);
      |t| + |SupClose| <= |o| && o[|o| - |t| - |SupClose|..] == SupClose + t
  {
    LastPieceFree(o, SupClose);
    if Contains(o, SupClose) {
      LastPieceEnds(o, SupClose);
    } else {
      LastPieceWhole(o, SupClose);
    }
  }

  /** `get_organization_affiliated`: the affiliation of every entry, in order. */
  function Organizations(entries: seq<string>): (os: seq<string>)
    ensures |os| == |entries| && forall i :: 0 <= i < |entries| ==> os[i] == Organization(entries[i])
  {
    seq(|entries|, i requires 0 <= i < |entries| => Organization(entries[i]))
  }

  /** scielo.py `get_organization_affiliated`: the affiliations as an `orgs` tag list. */
  function OrganizationsTagged(entries: seq<string>): (r: Option<string>)
    ensures r.None? <==> entries == []
  {
    TagList(Some(Organizations(entries)), "orgs")
  }

  /** Every author name formatted. */
  function FormattedAuthors(names: seq<string>): (fs: seq<string>)
    ensures |fs| == |names| && forall i :: 0 <= i < |names| ==> fs[i] == FormatAuthor(names[i])
  {
    seq(|names|, i requires 0 <= i < |names| => FormatAuthor(names[i]))
  }

  /** `list(dict.fromkeys(map(__format_author, names)))`. */
  function Authors(names: seq<string>): seq<string> {
    Dedup(FormattedAuthors(names))
  }

  /** The authors are exactly the formatted names. */
  lemma AuthorsMembers(names: seq<string>)
    ensures forall a :: a in Authors(names) <==> a in FormattedAuthors(names)
  {
    DedupSpec(FormattedAuthors(names));
  }

  /** Each author appears once, in the order of its first appearance among the formatted names. */
  lemma AuthorsOrder(names: seq<string>)
    ensures NoDuplicates(Authors(names))
    ensures forall i, j :: 0 <= i < j < |Authors(names)| ==>
      var fs := FormattedAuthors(names);
      Authors(names)[i] in fs && Authors(names)[j] in fs &&
      FirstIndex(fs, Authors(names)[i]) < FirstIndex(fs, Authors(names)[j])
  {
    DedupSpec(FormattedAuthors(names));
  }

  /** No author holds a comma. */
  lemma AuthorsNoComma(names: seq<string>)
    ensures forall a :: a in Authors(names) ==> ',' !in a
  {
    var fs := FormattedAuthors(names);
    DedupSpec(fs);
    forall a | a in Authors(names) ensures ',' !in a {
      var i :| 0 <= i < |fs| && fs[i] == a;
      FormatAuthorNoComma(names[i]);
    }
  }

  /** scielo.py `get_authors`: the authors as an `author` tag list. */
  function AuthorsTagged(names: seq<string>): (r: Option<string>)
    ensures r.None? <==> names == []
  {
    DedupSpec(FormattedAuthors(names));
    assert names != [] ==> FormattedAuthors(names)[0] in Authors(names);
    TagList(Some(Authors(names)), "author")
  }

  /** scielo.py `get_abstract`: the abstract paragraphs joined by newlines. */
  function AbstractText(ps: seq<string>): string {
    Join("\n", ps)
  }

  /** Abstract paragraphs without line breaks come back from splitting at the newlines. */
  lemma AbstractSplits(ps: seq<string>)
    requires ps != [] && forall p :: p in ps ==> '\n' !in p
    ensures Split(AbstractText(ps), "\n") == ps
  {
    SplitJoin(ps, '\n');
  }

  /**
    scielo.py `get_date_publication`, given the element's text (None when
    the element is absent) and the `citation_date` meta value. The text
    after "Epub " would be parsed with `datetime.datetime.strptime`, but
    the module does not import `datetime`, so that line raises NameError,
    which the bare `except` turns into None. Without the text
    (AttributeError) or without an "Epub " part (IndexError) the meta value
    is returned with '/' replaced by '-'; a missing meta value makes the
    handler itself raise AttributeError.
   */
  function DatePublication(text: Option<string>, citation: Option<string>): (r: Result<Option<string>, MinerError>)
    ensures text.Some? && |Split(text.value, "Epub ")| >= 2 ==> r == Ok(None)
    ensures (text.None? || |Split(text.value, "Epub ")| < 2) ==>
      && (r == Err(AttributeError) <==> citation.None?)
      && (r.Ok? ==> r.value.Some? && '/' !in r.value.value)
      && (r.Ok? && '-' !in citation.value ==> ReplaceAll(r.value.value, "-", "/") == citation.value)
  {
    if text.Some? && |Split(text.value, "Epub ")| >= 2 then Ok(None)
    else if citation.None? then Err(AttributeError)
    else
      ReplaceCharRemoves(citation.value, '/', "-");
      SlashesBack(citation.value);
      Ok(Some(ReplaceAll(citation.value, "/", "-")))
  }

  /** A date without '-' comes back from its dashed form by turning the dashes into slashes again. */
  lemma SlashesBack(c: string)
    ensures '-' !in c ==> ReplaceAll(ReplaceAll(c, "/", "-"), "-", "/") == c
  {
    if '-' !in c {
      var parts := Split(c, "/");
      SplitPieceChars(c, "/", '-');
      SplitJoin(parts, '-');
      JoinSplit(c, "/");
    }
  }

  /** What `gather` and `GetArticle` can raise. */
  datatype MinerError =
    | KeyError(key: string)
    /** `.get` on results that `gather` set to None. */
    | AttributeError

  /** `results[to] = results.pop(from)`. */
  function Renamed(m: Record, from: string, to: string): (r: Record)
    requires from in m
    ensures from != to ==> from !in r
    ensures to in r && r[to] == m[from]
  {
    (m - {from})[to := m[from]]
  }

  /**
    What `gather` leaves in `results` after the base miner found `mined`:
    three keys renamed; an empty abstract replaced by the body, and then
    None when the abstract or the title is still empty.
   */
  function Gathered(mined: Record): Result<Option<Record>, MinerError> {
    if "date_aquisition" !in mined then Err(KeyError("date_aquisition"))
    else
      var m1 := Renamed(mined, "date_aquisition", "acquisition_date");
      if "date_publication" !in m1 then Err(KeyError("date_publication"))
      else
        var m2 := Renamed(m1, "date_publication", "date");
        if "url" !in m2 then Err(KeyError("url"))
        else
          var m3 := Renamed(m2, "url", "link");
          if "abstract" !in m3 then Err(KeyError("abstract"))
          else if Truthy(m3["abstract"]) then Ok(Some(m3))
          else if "body" !in m3 then Err(KeyError("body"))
          else
            var m4 := m3["abstract" := m3["body"]];
            if !Truthy(m4["abstract"]) then Ok(None)
            else if "title" !in m4 then Err(KeyError("title"))
            else if !Truthy(m4["title"]) then Ok(None)
            else Ok(Some(m4))
  }

  /**
    Gathered results carry the acquisition date, the date and the link
    under their new names only, and a non-empty abstract: the mined one,
    or else the body, and in that case also a non-empty title.
   */
  lemma GatheredSpec(mined: Record)
    requires Gathered(mined).Ok? && Gathered(mined).value.Some?
    ensures var m := Gathered(mined).value.value;
      && "date_aquisition" !in m && "date_publication" !in m && "url" !in m
      && m["acquisition_date"] == mined["date_aquisition"] && m["date"] == mined["date_publication"]
      && m["link"] == mined["url"]
      && Truthy(m["abstract"])
      && (Truthy(mined["abstract"]) ==> m["abstract"] == mined["abstract"])
      && (!Truthy(mined["abstract"]) ==> m["abstract"] == mined["body"] && Truthy(m["title"]))
  {
  }

  /** With all keys present, `gather` gives None exactly when both abstract and body, or the abstract and title, are empty. */
  lemma GatheredNone(mined: Record)
    requires forall k :: k in ["date_aquisition", "date_publication", "url", "abstract", "body", "title"] ==> k in mined
    ensures Gathered(mined).Ok?
    ensures Gathered(mined).value.None? <==>
      !Truthy(mined["abstract"]) && (!Truthy(mined["body"]) || !Truthy(mined["title"]))
  {
    var keys := ["date_aquisition", "date_publication", "url", "abstract", "body", "title"];
    assert keys[0] in mined && keys[1] in mined && keys[2] in mined;
    assert keys[3] in mined && keys[4] in mined && keys[5] in mined;
    var m3 := Renamed(Renamed(Renamed(mined, keys[0], "acquisition_date"), keys[1], "date"), keys[2], "link");
    RenamedKeep(mined, m3, keys[3]);
    RenamedKeep(mined, m3, keys[4]);
    RenamedKeep(mined, m3, keys[5]);
  }

  /** The three renamings of `gather` keep every other key and its value. */
  lemma RenamedKeep(mined: Record, m3: Record, k: string)
    requires "date_aquisition" in mined && "date_publication" in mined && "url" in mined && k in mined
    requires k !in {"date_aquisition", "acquisition_date", "date_publication", "date", "url", "link"}
    requires m3 == Renamed(Renamed(Renamed(mined, "date_aquisition", "acquisition_date"),
                                   "date_publication", "date"), "url", "link")
    ensures k in m3 && m3[k] == mined[k]
  {
  }

  /** The miner object: its `results` dict, None once `gather` has dropped it. */
  class ScieloEngine {
    var results: Option<Record>

    constructor ()
      ensures results == Some(map[])
    {
      results := Some(map[]);
    }

    /**
      `gather(url)`, the base miner having found `mined`: on success
      `results` is what `Gathered` describes; a missing key raises.
     */
    method Gather(mined: Record) returns (outcome: Result<(), MinerError>)
      modifies this
      ensures outcome.Ok? <==> Gathered(mined).Ok?
      ensures outcome.Ok? ==> results == Gathered(mined).value
      ensures outcome.Err? ==> outcome.error == Gathered(mined).error
    {
      results := Some(mined);
      if "date_aquisition" !in mined {
        return Err(KeyError("date_aquisition"));
      }
      var m := Renamed(mined, "date_aquisition", "acquisition_date");
      results := Some(m);
      if "date_publication" !in m {
        return Err(KeyError("date_publication"));
      }
      m := Renamed(m, "date_publication", "date");
      results := Some(m);
      if "url" !in m {
        return Err(KeyError("url"));
      }
      m := Renamed(m, "url", "link");
      results := Some(m);
      if "abstract" !in m {
        return Err(KeyError("abstract"));
      }
      if !Truthy(m["abstract"]) {
        if "body" !in m {
          return Err(KeyError("body"));
        }
        m := m["abstract" := m["body"]];
        results := Some(m);
        if !Truthy(m["abstract"]) {
          results := None;
        } else if "title" !in m {
          return Err(KeyError("title"));
        } else if !Truthy(m["title"]) {
          results := None;
        }
      }
      outcome := Ok(());
    }
  }

  /** The keys `GetArticle` moves to meta_info, in loop order. */
  const MetaKeys: seq<string> := ["references", "organization_affiliated", "keywords", "license", "extra_link"]

  /** One pass of the meta_info loop as written: a key with a value is popped, and its value replaces meta_info. */
  function MetaStep(state: (Record, Value), k: string): (Record, Value) {
    var (r, meta) := state;
    if Get(r, k) != Null then (r - {k}, r[k]) else state
  }

  /** The results and meta_info after the loop as written has passed over `keys`. */
  function PopMeta(res: Record, keys: seq<string>): (Record, Value) {
    if keys == [] then (res, Dict(map[]))
    else MetaStep(PopMeta(res, keys[..|keys| - 1]), keys[|keys| - 1])
  }

  /** The loop one key further. */
  lemma PopMetaSnoc(res: Record, keys: seq<string>, k: string)
    ensures PopMeta(res, keys + [k]) == MetaStep(PopMeta(res, keys), k)
  {
    assert (keys + [k])[..|keys|] == keys;
  }

  /** What `GetArticle` returns or raises for the mined results. */
  function ArticleAsWritten(mined: Record): Result<Record, MinerError> {
    match Gathered(mined)
    case Err(e) => Err(e)
    case Ok(None) => Err(AttributeError)
    case Ok(Some(res)) =>
      var (r, meta) := PopMeta(res, MetaKeys);
      Ok(r["meta_info" := Json(meta)])
  }

  /**
    `GetArticle(url)`: gather, move the meta keys out of the results, and
    store meta_info as JSON text.
   */
  method GetArticle(mined: Record) returns (r: Result<Record, MinerError>)
    ensures r == ArticleAsWritten(mined)
  {
    var miner := new ScieloEngine();
    var gathered := miner.Gather(mined);
    if gathered.Err? {
      return Err(gathered.error);
    }
    if miner.results.None? {
      return Err(AttributeError);
    }
    ghost var res := miner.results.value;
    var metaInfo: Value := Dict(map[]);
    for i := 0 to |MetaKeys|
      invariant miner.results.Some?
      invariant (miner.results.value, metaInfo) == PopMeta(res, MetaKeys[..i])
    {
      assert MetaKeys[..i + 1] == MetaKeys[..i] + [MetaKeys[i]];
      PopMetaSnoc(res, MetaKeys[..i], MetaKeys[i]);
      var key := MetaKeys[i];
      if Get(miner.results.value, key) != Null {
        metaInfo := miner.results.value[key];
        miner.results := Some(miner.results.value - {key});
      }
    }
    assert MetaKeys[..|MetaKeys|] == MetaKeys;
    r := Ok(miner.results.value["meta_info" := Json(metaInfo)]);
  }

  /** The meta keys with their order spelled out as the loop meets them. */
  lemma MetaKeysInOrder()
    ensures MetaKeys == [] + ["references"] + ["organization_affiliated"] + ["keywords"] + ["license"] + ["extra_link"]
  {
  }

  /**
    The loop as written over results with references and a license but
    no extra link: the references are popped, yet meta_info ends up as
    the license alone.
   */
  lemma MetaOverwrite(res: Record)
    requires Get(res, "references") != Null && Get(res, "license") != Null && Get(res, "extra_link") == Null
    ensures "references" !in PopMeta(res, MetaKeys).0
    ensures PopMeta(res, MetaKeys).1 == res["license"]
  {
    MetaKeysInOrder();
    var k1, k2, k3 := [] + ["references"], [] + ["references"] + ["organization_affiliated"],
      [] + ["references"] + ["organization_affiliated"] + ["keywords"];
    var k4 := k3 + ["license"];
    PopMetaSnoc(res, [], "references");
    PopMetaSnoc(res, k1, "organization_affiliated");
    PopMetaSnoc(res, k2, "keywords");
    PopMetaSnoc(res, k3, "license");
    PopMetaSnoc(res, k4, "extra_link");
    var s1 := PopMeta(res, k1);
    assert s1 == (res - {"references"}, res["references"]);
    var s3 := PopMeta(res, k3);
    assert "references" !in s3.0 && Get(s3.0, "license") == res["license"] && Get(s3.0, "extra_link") == Null;
    var s4 := PopMeta(res, k4);
    assert s4.1 == res["license"] && "references" !in s4.0 && Get(s4.0, "extra_link") == Null;
  }

  /**
    As written, meta_info keeps only the last meta value: on a page with
    references and a license but no extra link, the references are popped
    from the article and then overwritten by the license.
   */
  lemma MetaInfoOverwritten(mined: Record)
    requires Gathered(mined).Ok? && Gathered(mined).value.Some?
    requires var res := Gathered(mined).value.value;
      Get(res, "references") != Null && Get(res, "license") != Null && Get(res, "extra_link") == Null
    ensures ArticleAsWritten(mined).Ok?
    ensures var res, a := Gathered(mined).value.value, ArticleAsWritten(mined).value;
      "references" !in a && a["meta_info"] == Json(res["license"])
  {
    MetaOverwrite(Gathered(mined).value.value);
  }

  /** The evidently intended meta_info: every meta key that has a value, under its own name. */
  function IntendedMeta(res: Record): (meta: Record)
    ensures forall k :: k in meta <==> k in MetaKeys && k in res && res[k] != Null
    ensures forall k :: k in meta ==> meta[k] == res[k]
  {
    map k | k in MetaKeys && k in res && res[k] != Null :: res[k]
  }

  /** The evidently intended `GetArticle`: the meta values gathered into one dict instead of overwriting each other. */
  function ArticleIntended(mined: Record): Result<Record, MinerError> {
    match Gathered(mined)
    case Err(e) => Err(e)
    case Ok(None) => Err(AttributeError)
    case Ok(Some(res)) =>
      var rest := map k | k in res && !(k in MetaKeys && res[k] != Null) :: res[k];
      Ok(rest["meta_info" := Json(Dict(IntendedMeta(res)))])
  }

  /**
    In the intended article every meta value is kept in meta_info and no
    longer stands at the top level, while every other result is kept
    as it was.
   */
  lemma IntendedKeepsMeta(mined: Record)
    requires Gathered(mined).Ok? && Gathered(mined).value.Some?
    ensures ArticleIntended(mined).Ok?
    ensures var res, a := Gathered(mined).value.value, ArticleIntended(mined).value;
      && a["meta_info"] == Json(Dict(IntendedMeta(res)))
      && (forall k :: k in MetaKeys && k in res && res[k] != Null ==>
            k in IntendedMeta(res) && IntendedMeta(res)[k] == res[k] && k !in a)
      && (forall k :: k in res && k !in MetaKeys && k != "meta_info" ==> k in a && a[k] == res[k])
  {
  }
}
