/** The readable-text extraction of cli/python/fetch.py. The HTML parser is replaced by
    the sequence of events it reports (start tags, end tags, text); `TextExtractor`
    is a fold over those events with one skip flag; `fetch` joins the kept pieces
    with line feeds, and the command prints the first 5000 characters. */
module Fetch {
  import opened Strings

  /** One callback of the HTML parser. Tag names arrive lower-cased from the parser. */
  datatype Event = StartTag(tag: string) | EndTag(tag: string) | Data(data: string)

  /** The tags whose content is dropped. */
  const SkipTags: set<string> := {"script", "style", "nav", "footer", "header"}

  /** The characters the command prints at most. */
  const MaxOutput: nat := 5000

  /** The extractor's state: the kept pieces and the skip flag. */
  datatype Extractor = Extractor(text: seq<string>, skip: bool)

  const Fresh: Extractor := Extractor([], false)

  predicate OpensSkip(e: Event) {
    e.StartTag? && e.tag in SkipTags
  }

  predicate ClosesSkip(e: Event) {
    e.EndTag? && e.tag in SkipTags
  }

  /** One callback: a skip tag sets or clears the one flag, with no nesting count;
      text outside a skip region is stripped and kept unless nothing is left. */
  function Handle(x: Extractor, e: Event): (r: Extractor)
    ensures e.Data? && !x.skip && Strip(e.data) != [] ==> r.text == x.text + [Strip(e.data)]
    ensures !(e.Data? && !x.skip && Strip(e.data) != []) ==> r.text == x.text
    ensures r.skip == (if OpensSkip(e) then true else if ClosesSkip(e) then false else x.skip)
  {
    match e
    case StartTag(tag) => if tag in SkipTags then x.(skip := true) else x
    case EndTag(tag) => if tag in SkipTags then x.(skip := false) else x
    case Data(data) =>
      if x.skip then x
      else
        var t := Strip(data);
        if t != [] then x.(text := x.text + [t]) else x
  }

  /** `feed`: the callbacks in document order. */
  function Feed(events: seq<Event>): Extractor {
    if |events| == 0 then Fresh
    else Handle(Feed(events[..|events| - 1]), events[|events| - 1])
  }

  /** Declarative reading of the flag: text is skipped after some skip tag opened
      and no skip tag closed since. The tags need not match: `</nav>` ends the
      skipping a `<script>` began, and an inner `</script>` ends an outer `<nav>`. */
  ghost predicate Skipping(events: seq<Event>) {
    exists i :: 0 <= i < |events| && OpensSkip(events[i]) &&
      forall j :: i < j < |events| ==> !ClosesSkip(events[j])
  }

  /** An opening skip tag starts a skip region. */
  lemma SkippingAfterOpen(front: seq<Event>, e: Event)
    requires OpensSkip(e)
    ensures Skipping(front + [e])
  {
    assert OpensSkip((front + [e])[|front|]);
  }

  /** A closing skip tag ends every skip region. */
  lemma SkippingAfterClose(front: seq<Event>, e: Event)
    requires ClosesSkip(e)
    ensures !Skipping(front + [e])
  {
    var evs := front + [e];
    forall i | 0 <= i < |evs| && OpensSkip(evs[i])
      ensures exists j :: i < j < |evs| && ClosesSkip(evs[j])
    {
      assert i < |front| && ClosesSkip(evs[|front|]);
    }
  }

  /** Any other event leaves the reading unchanged. */
  lemma SkippingAfterOther(front: seq<Event>, e: Event)
    requires !OpensSkip(e) && !ClosesSkip(e)
    ensures Skipping(front + [e]) <==> Skipping(front)
  {
    var evs := front + [e];
    if Skipping(front) {
      var i :| 0 <= i < |front| && OpensSkip(front[i]) && forall j :: i < j < |front| ==> !ClosesSkip(front[j]);
      assert evs[i] == front[i];
      assert forall j :: i < j < |evs| ==> !ClosesSkip(evs[j]) by {
        forall j | i < j < |evs| ensures !ClosesSkip(evs[j]) {
          if j < |front| {
            assert evs[j] == front[j];
          }
        }
      }
    }
    if Skipping(evs) {
      var i :| 0 <= i < |evs| && OpensSkip(evs[i]) && forall j :: i < j < |evs| ==> !ClosesSkip(evs[j]);
      assert i < |front| && front[i] == evs[i];
      assert forall j :: i < j < |front| ==> !ClosesSkip(front[j]) by {
        forall j | i < j < |front| ensures !ClosesSkip(front[j]) {
          assert evs[j] == front[j];
        }
      }
    }
  }

  /** The flag after a prefix of the events is exactly the declarative reading. */
  lemma {:induction false} FeedSkip(events: seq<Event>)
    ensures Feed(events).skip <==> Skipping(events)
  {
    if |events| > 0 {
      var n := |events| - 1;
      var front := events[..n];
      var e := events[n];
      FeedSkip(front);
      assert events == front + [e];
      if OpensSkip(e) {
        SkippingAfterOpen(front, e);
      } else if ClosesSkip(e) {
        SkippingAfterClose(front, e);
      } else {
        SkippingAfterOther(front, e);
      }
    }
  }

  /** The text kept from the events, read off the declarative flag: each text event
      outside a skip region whose stripped form is non-empty, in order. */
  ghost function Visible(events: seq<Event>): seq<string> {
    if |events| == 0 then []
    else
      var n := |events| - 1;
      var e := events[n];
      Visible(events[..n]) +
        (if e.Data? && !Skipping(events[..n]) && Strip(e.data) != [] then [Strip(e.data)] else [])
  }

  /** The extractor keeps exactly the visible text. */
  lemma {:induction false} FeedText(events: seq<Event>)
    ensures Feed(events).text == Visible(events)
  {
    if |events| > 0 {
      var n := |events| - 1;
      FeedText(events[..n]);
      FeedSkip(events[..n]);
    }
  }

  /** Every kept piece is non-empty and stripped. */
  lemma {:induction false} FeedPieces(events: seq<Event>)
    ensures forall i :: 0 <= i < |Feed(events).text| ==>
      Feed(events).text[i] != [] && IsStripped(Feed(events).text[i])
  {
    if |events| > 0 {
      var n := |events| - 1;
      FeedPieces(events[..n]);
      var front := Feed(events[..n]).text;
      var all := Feed(events).text;
      forall i | 0 <= i < |all| ensures all[i] != [] && IsStripped(all[i]) {
        if i < |front| {
          assert all[i] == front[i];
        }
      }
    }
  }

  /** A skip tag opened inside another is closed by the inner end tag, so the text
      after `<nav><script></script>` is kept although `<nav>` is still open. */
  lemma SkipDoesNotNest()
    ensures Feed([StartTag("nav"), StartTag("script"), EndTag("script"), Data(" menu ")]).text == ["menu"]
  {
    var evs := [StartTag("nav"), StartTag("script"), EndTag("script"), Data(" menu ")];
    assert evs[..1] == [StartTag("nav")] && evs[..1][..0] == [];
    assert evs[..2][..1] == evs[..1] && evs[..3][..2] == evs[..2] && evs[..4] == evs;
    assert Feed(evs[..1]) == Extractor([], true);
    assert Feed(evs[..2]) == Extractor([], true);
    assert Feed(evs[..3]) == Extractor([], false);
    assert TrimLeft(" menu ") == "menu ";
    assert TrimRight("menu ") == "menu";
  }

  /** `fetch`: the kept pieces joined by line feeds. */
  function FetchText(events: seq<Event>): string {
    Join("\n", Feed(events).text)
  }

  /** A joined text whose parts are all stripped and non-empty is itself stripped:
      the fetched text never starts or ends with whitespace. */
  lemma {:induction false} JoinOfStripped(parts: seq<string>)
    requires forall i :: 0 <= i < |parts| ==> parts[i] != [] && IsStripped(parts[i])
    ensures var t := Join("\n", parts);
      && IsStripped(t)
      && (t == [] <==> parts == [])
  {
    if |parts| >= 2 {
      JoinOfStripped(parts[1..]);
      var rest := Join("\n", parts[1..]);
      assert Join("\n", parts) == parts[0] + "\n" + rest;
      assert parts[1..][0] == parts[1];
    }
  }

  /** The fetched text is stripped, empty exactly when nothing was kept, and holds every
      kept piece. When no piece holds a line feed of its own, the lines of the fetched
      text are the kept pieces, in order: the pieces are separated by single line feeds. */
  lemma FetchTextShape(events: seq<Event>)
    ensures IsStripped(FetchText(events))
    ensures FetchText(events) == [] <==> Feed(events).text == []
    ensures forall i :: 0 <= i < |Feed(events).text| ==> Contains(FetchText(events), Feed(events).text[i])
    ensures Feed(events).text != [] && (forall i :: 0 <= i < |Feed(events).text| ==> '\n' !in Feed(events).text[i]) ==>
      Split(FetchText(events), '\n') == Feed(events).text
  {
    if Feed(events).text != [] && forall i :: 0 <= i < |Feed(events).text| ==> '\n' !in Feed(events).text[i] {
      SplitJoin(Feed(events).text, '\n');
    }
    FeedPieces(events);
    JoinOfStripped(Feed(events).text);
    forall i | 0 <= i < |Feed(events).text| ensures Contains(FetchText(events), Feed(events).text[i]) {
      JoinHasPart("\n", Feed(events).text, i);
    }
  }

  /** What the command prints: the fetched text cut to its first 5000 characters. */
  function FetchOutput(events: seq<Event>): (r: string)
    ensures |r| <= MaxOutput && |r| <= |FetchText(events)|
    ensures r == FetchText(events)[..|r|]
    ensures |FetchText(events)| <= MaxOutput ==> r == FetchText(events)
    ensures |FetchText(events)| > MaxOutput ==> |r| == MaxOutput
  {
    Take(FetchText(events), MaxOutput)
  }
}
