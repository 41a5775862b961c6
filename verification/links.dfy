/** The bookmark list of cli/python/links.py: adding a link with its title fallback
    and comma-separated tags, and listing the links that carry a tag, two lines each.

    The JSON file is replaced by the list it holds and the clock reading stored in
    `added` is a parameter. */
module Links {
  import opened Wrappers
  import opened Strings
  import Seqs

  /** One stored link. A link read back from the file may lack its `tags` key, which
      listing treats as no tags. */
  datatype Link = Link(url: string, title: string, tags: Option<seq<string>>, added: string)

  /** The tags argument of `add_link`: empty means no tags, otherwise every comma
      splits, so empty tags are kept. */
  function TagList(tags: string): (r: seq<string>)
    ensures tags == [] <==> r == []
    ensures forall i :: 0 <= i < |r| ==> ',' !in r[i]
  {
    if tags == [] then []
    else
      SplitPiecesLackSeparator(tags, ',');
      Split(tags, ',')
  }

  /** Joining the stored tags with commas gives back the argument they came from. */
  lemma TagListRoundTrip(tags: string)
    ensures Join(",", TagList(tags)) == tags
  {
    if tags != [] {
      JoinSplit(tags, ',');
    }
  }

  /** Tags given as comma-joined names come back as the same names, as long as no
      name holds a comma and the list is not the single empty name (which joins to
      the empty argument and so stores no tags). */
  lemma TagListOfJoin(names: seq<string>)
    requires |names| >= 1 && names != [[]]
    requires forall i :: 0 <= i < |names| ==> ',' !in names[i]
    ensures TagList(Join(",", names)) == names
  {
    if |names| >= 2 {
      assert Join(",", names) == names[0] + "," + Join(",", names[1..]);
      assert Join(",", names)[|names[0]|] == ',';
    } else {
      assert names[0] != [];
    }
    SplitJoin(names, ',');
  }

  /** `add_link`: the new link goes at the end; an empty title falls back to the url. */
  function AddLink(links: seq<Link>, url: string, title: string, tags: string, added: string): (r: seq<Link>)
    ensures |r| == |links| + 1 && r[..|links|] == links
    ensures r[|links|].url == url && r[|links|].added == added
    ensures r[|links|].title == [] <==> title == [] && url == []
    ensures r[|links|].title == (if title == [] then url else title)
    ensures r[|links|].tags == Some(TagList(tags))
  {
    links + [Link(url, if title == [] then url else title, Some(TagList(tags)), added)]
  }

  /** The tags listing sees: a missing key reads as no tags. */
  function TagsOf(link: Link): seq<string> {
    link.tags.GetOr([])
  }

  /** `list_links` shows a link when no tag is asked for or when the tag is one of its tags. */
  predicate Shown(link: Link, tag: Option<string>) {
    tag.None? || tag.value in TagsOf(link)
  }

  function ShownLinks(links: seq<Link>, tag: Option<string>): seq<Link> {
    Seqs.Filter((l: Link) => Shown(l, tag), links)
  }

  /** A tag in brackets. */
  function Bracket(tag: string): string {
    "[" + tag + "]"
  }

  /** The tags shown on the title line: each in brackets, separated by single spaces. */
  function RenderTags(tags: seq<string>): (r: string)
    ensures tags == [] ==> r == []
  {
    Join(" ", Seqs.Map(Bracket, tags))
  }

  /** Every tag of a link appears in brackets on its title line; the first bracketed
      tag opens the rendering and a single space precedes each later one; and when no
      tag holds a space, splitting the rendering at spaces gives back exactly the
      bracketed tags, in order. */
  lemma RenderTagsShowsEach(tags: seq<string>, i: nat)
    requires i < |tags|
    ensures Contains(RenderTags(tags), Bracket(tags[i]))
    ensures |tags| == 1 ==> RenderTags(tags) == Bracket(tags[0])
    ensures |tags| >= 2 ==> RenderTags(tags) == Bracket(tags[0]) + " " + RenderTags(tags[1..])
    ensures (forall j :: 0 <= j < |tags| ==> ' ' !in tags[j]) ==>
      Split(RenderTags(tags), ' ') == Seqs.Map(Bracket, tags)
  {
    var parts := Seqs.Map(Bracket, tags);
    JoinHasPart(" ", parts, i);
    if |tags| >= 2 {
      assert parts[1..] == Seqs.Map(Bracket, tags[1..]);
    }
    if forall j :: 0 <= j < |tags| ==> ' ' !in tags[j] {
      forall j | 0 <= j < |parts| ensures ' ' !in parts[j] {
        assert parts[j] == "[" + tags[j] + "]";
      }
      SplitJoin(parts, ' ');
    }
  }

  /** The two printed lines of one link: bullet, title, a space and the tags; then the url indented. */
  function LinkLines(link: Link): (r: seq<string>)
    ensures |r| == 2
  {
    ["• " + link.title + " " + RenderTags(TagsOf(link)), "  " + link.url]
  }

  /** `list_links`: the lines of the shown links, in stored order. */
  function ListLinks(links: seq<Link>, tag: Option<string>): seq<string> {
    Seqs.FlatMap(LinkLines, ShownLinks(links, tag))
  }

  /** The lines of a list of links are two per link: line `2k` is the title line and
      line `2k + 1` the url line of link `k`. */
  lemma {:induction false} LinesOfLinks(shown: seq<Link>)
    ensures |Seqs.FlatMap(LinkLines, shown)| == 2 * |shown|
    ensures forall k :: 0 <= k < |shown| ==>
      Seqs.FlatMap(LinkLines, shown)[2 * k] == LinkLines(shown[k])[0] &&
      Seqs.FlatMap(LinkLines, shown)[2 * k + 1] == "  " + shown[k].url
  {
    if |shown| > 0 {
      var n := |shown| - 1;
      LinesOfLinks(shown[..n]);
      var front := Seqs.FlatMap(LinkLines, shown[..n]);
      var all := Seqs.FlatMap(LinkLines, shown);
      assert all == front + LinkLines(shown[n]);
      forall k | 0 <= k < |shown|
        ensures all[2 * k] == LinkLines(shown[k])[0] && all[2 * k + 1] == "  " + shown[k].url
      {
        if k < n {
          assert shown[..n][k] == shown[k];
        }
      }
    }
  }

  /** Listing with no tag prints every link; with a tag, exactly the links carrying
      it, two lines each. */
  lemma ListLinksShape(links: seq<Link>, tag: Option<string>)
    ensures |ListLinks(links, tag)| == 2 * |ShownLinks(links, tag)|
    ensures tag.None? ==> ShownLinks(links, tag) == links
    ensures forall l :: l in ShownLinks(links, tag) <==> l in links && (tag.None? || tag.value in TagsOf(l))
  {
    LinesOfLinks(ShownLinks(links, tag));
    if tag.None? {
      Seqs.FilterAll((l: Link) => Shown(l, tag), links);
    }
  }

  /** A link added with tags is listed under each of them. */
  lemma AddedLinkListedUnderItsTags(links: seq<Link>, url: string, title: string, tags: string, added: string, i: nat)
    requires i < |TagList(tags)|
    ensures var r := AddLink(links, url, title, tags, added);
      r[|links|] in ShownLinks(r, Some(TagList(tags)[i]))
  {
    var r := AddLink(links, url, title, tags, added);
    assert r[|links|] in r;
  }
}
