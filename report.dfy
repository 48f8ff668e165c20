/** The HTML report written beside a downloaded card: a header (name, avatar,
    description), a "Card Information" list with one item per field of a
    fixed table except the name and the avatar URL, an optional "Token
    Counts" list, and a footer. The document is modelled as its sequence of
    blocks; the style sheet and markup around them are constant text. Values
    go into the document as they are, without HTML escaping. */
module Report {
  import opened OrderedDict
  import PyString
  import opened TokenCounts

  /** A card as the search endpoint returns it: the text form (`str(v)`) of
      each scalar value it has, by JSON key; its topics (`[]` when absent);
      and its labels (`[]` when absent). */
  datatype Node = Node(fields: map<string, string>, topics: seq<string>, labels: seq<Label>)

  /** `node.get(key, '')` as it appears in the document: a missing key shows as the empty string. */
  function Text(node: Node, key: string): (r: string)
    ensures key !in node.fields ==> r == ""
    ensures key in node.fields ==> r == node.fields[key]
  {
    if key in node.fields then node.fields[key] else ""
  }

  /** The labels of the field table, in declaration order. */
  const FieldLabels: seq<string> := [
    "Name", "ID", "Full Path", "Downloads", "Last Activity", "Created At", "Tags", "Forks",
    "Rating", "Rating Count", "Tagline", "Chats", "Messages", "Public Chats", "Favorites", "Avatar URL"]

  /** The node key each label reads (`Tags` joins the `topics` list instead). */
  const FieldKeys: seq<string> := [
    "name", "id", "fullPath", "starCount", "lastActivityAt", "createdAt", "topics", "forksCount",
    "rating", "ratingCount", "tagline", "nChats", "nMessages", "n_public_chats", "n_favorites", "avatar_url"]

  /** Index of `Tags` in the table. */
  const TagsIndex: nat := 6

  /** The text the table shows under label `i`. */
  function FieldValue(node: Node, i: nat): string
    requires i < |FieldKeys|
  {
    if i == TagsIndex then PyString.Join(node.topics, ", ") else Text(node, FieldKeys[i])
  }

  /** The field table: each label of `FieldLabels` with the text shown for it.
      No label occurs twice, so the dict literal keeps all sixteen rows. */
  function Fields(node: Node): (r: seq<(string, string)>)
    ensures KeysUnique(r)
    ensures |r| == |FieldLabels|
    ensures forall i :: 0 <= i < |r| ==> r[i] == (FieldLabels[i], FieldValue(node, i))
  {
    FieldLabelsDistinct();
    seq(|FieldLabels|, i requires 0 <= i < |FieldLabels| => (FieldLabels[i], FieldValue(node, i)))
  }

  /** No label of the table occurs twice. Labels of equal length differ in
      their first or their last character. */
  lemma FieldLabelsDistinct()
    ensures forall i, j :: 0 <= i < j < |FieldLabels| ==> FieldLabels[i] != FieldLabels[j]
  {
    forall i, j | 0 <= i < j < |FieldLabels| ensures FieldLabels[i] != FieldLabels[j] {
      var a, b := FieldLabels[i], FieldLabels[j];
      assert |a| != |b| || a[0] != b[0] || a[|a| - 1] != b[|b| - 1];
    }
  }

  /** Labels the information list leaves out because the header shows them. */
  const Excluded: seq<string> := ["Name", "Description", "Avatar URL"]

  /** The blocks of a report, in document order. */
  datatype Block =
    | Header(name: string, avatarUrl: string, descriptionHtml: string)
    | InfoItem(caption: string, value: string)
    | InfoEnd
    | TokenCountsStart
    | TokenItem(key: string, count: int)
    | TokenCountsEnd
    | Footer

  /** One information item per field whose label is not excluded, in table order. */
  function InfoItems(fields: seq<(string, string)>): (r: seq<Block>)
    ensures forall i :: 0 <= i < |r| ==> r[i].InfoItem? && r[i].caption !in Excluded
  {
    if fields == [] then []
    else
      var (caption, value) := fields[|fields| - 1];
      InfoItems(fields[..|fields| - 1]) + if caption in Excluded then [] else [InfoItem(caption, value)]
  }

  /** One token item per entry of the dict, in insertion order. */
  function TokenItems(counts: Dict<string, int>): (r: seq<Block>)
    ensures |r| == |counts|
    ensures forall i :: 0 <= i < |r| ==> r[i] == TokenItem(counts[i].0, counts[i].1)
  {
    if counts == [] then []
    else TokenItems(counts[..|counts| - 1]) + [TokenItem(counts[|counts| - 1].0, counts[|counts| - 1].1)]
  }

  /** The "Token Counts" list, present only when there is something to list. */
  function TokenSection(counts: Dict<string, int>): seq<Block> {
    if counts == [] then [] else [TokenCountsStart] + TokenItems(counts) + [TokenCountsEnd]
  }

  /** The report up to the end of the information list. */
  function ReportHead(node: Node, descriptionHtml: string): seq<Block> {
    [Header(Text(node, "name"), Text(node, "avatar_url"), descriptionHtml)]
    + InfoItems(Fields(node)) + [InfoEnd]
  }

  /** The report of a card whose markdown description renders as `descriptionHtml`. */
  function Report(node: Node, descriptionHtml: string): seq<Block> {
    ReportHead(node, descriptionHtml) + TokenSection(CountsOf(node.labels)) + [Footer]
  }

  /** Builds the report block by block, appending to the document as the
      template string is extended; `markdown` stands for `markdown.markdown`. */
  method GenerateHtml(node: Node, markdown: string -> string) returns (doc: seq<Block>)
    ensures doc == Report(node, markdown(Text(node, "description")))
  {
    var descriptionHtml := markdown(Text(node, "description"));
    var tokenCounts := ExtractTokenCounts(node.labels);
    var fields := Fields(node);
    doc := [Header(fields[0].1, fields[15].1, descriptionHtml)];
    doc := AppendInfoItems(doc, fields);
    doc := doc + [InfoEnd];
    doc := AppendTokenSection(doc, tokenCounts);
    doc := doc + [Footer];
  }

  /** The loop over the field table: an item for each label not excluded. */
  method AppendInfoItems(doc: seq<Block>, fields: seq<(string, string)>) returns (r: seq<Block>)
    ensures r == doc + InfoItems(fields)
  {
    r := doc;
    for i := 0 to |fields|
      invariant r == doc + InfoItems(fields[..i])
    {
      var (caption, value) := fields[i];
      if caption !in Excluded {
        r := r + [InfoItem(caption, value)];
      }
      assert fields[..i + 1][..i] == fields[..i];
    }
    assert fields[..|fields|] == fields;
  }

  /** The token-count list, written only when the dict is not empty. */
  method AppendTokenSection(doc: seq<Block>, counts: Dict<string, int>) returns (r: seq<Block>)
    ensures r == doc + TokenSection(counts)
  {
    r := doc;
    if counts != [] {
      var items := [];
      for i := 0 to |counts|
        invariant items == TokenItems(counts[..i])
      {
        var (key, value) := counts[i];
        items := items + [TokenItem(key, value)];
        assert counts[..i + 1][..i] == counts[..i];
      }
      assert counts[..|counts|] == counts;
      r := r + ([TokenCountsStart] + items + [TokenCountsEnd]);
    }
  }

  /** The information entries of a document, in order. */
  function InfoEntriesOf(doc: seq<Block>): seq<(string, string)> {
    if doc == [] then []
    else
      var b := doc[|doc| - 1];
      InfoEntriesOf(doc[..|doc| - 1]) + if b.InfoItem? then [(b.caption, b.value)] else []
  }

  /** The token-count entries of a document, in order. */
  function TokenEntriesOf(doc: seq<Block>): seq<(string, int)> {
    if doc == [] then []
    else
      var b := doc[|doc| - 1];
      TokenEntriesOf(doc[..|doc| - 1]) + if b.TokenItem? then [(b.key, b.count)] else []
  }

  lemma {:induction false} EntriesOfConcat(a: seq<Block>, b: seq<Block>)
    ensures InfoEntriesOf(a + b) == InfoEntriesOf(a) + InfoEntriesOf(b)
    ensures TokenEntriesOf(a + b) == TokenEntriesOf(a) + TokenEntriesOf(b)
  {
    if b != [] {
      var n := |b| - 1;
      EntriesOfConcat(a, b[..n]);
      assert (a + b)[..|a + b| - 1] == a + b[..n];
    } else {
      assert a + b == a;
    }
  }

  /** Filtering the excluded labels out of a list distributes over concatenation. */
  lemma {:induction false} InfoItemsConcat(f: seq<(string, string)>, g: seq<(string, string)>)
    ensures InfoItems(f + g) == InfoItems(f) + InfoItems(g)
  {
    if g != [] {
      var n := |g| - 1;
      InfoItemsConcat(f, g[..n]);
      assert (f + g)[..|f + g| - 1] == f + g[..n];
    } else {
      assert f + g == f;
    }
  }

  /** A list of information items carries exactly the entries of the fields it was made from. */
  lemma {:induction false} InfoItemsEntries(fields: seq<(string, string)>)
    requires forall i :: 0 <= i < |fields| ==> fields[i].0 !in Excluded
    ensures InfoEntriesOf(InfoItems(fields)) == fields
    ensures TokenEntriesOf(InfoItems(fields)) == []
  {
    if fields != [] {
      var n := |fields| - 1;
      var front := fields[..n];
      assert fields == front + [fields[n]];
      InfoItemsEntries(front);
      InfoItemsSnoc(front, fields[n]);
      EntriesSnoc(InfoItems(front), InfoItem(fields[n].0, fields[n].1));
    }
  }

  /** Appending a field that is not excluded appends its item. */
  lemma InfoItemsSnoc(front: seq<(string, string)>, field: (string, string))
    requires field.0 !in Excluded
    ensures InfoItems(front + [field]) == InfoItems(front) + [InfoItem(field.0, field.1)]
  {
    assert (front + [field])[..|front|] == front;
  }

  /** Appending a block appends at most its own entry. */
  lemma EntriesSnoc(doc: seq<Block>, b: Block)
    ensures InfoEntriesOf(doc + [b]) == InfoEntriesOf(doc) + if b.InfoItem? then [(b.caption, b.value)] else []
    ensures TokenEntriesOf(doc + [b]) == TokenEntriesOf(doc) + if b.TokenItem? then [(b.key, b.count)] else []
  {
    assert (doc + [b])[..|doc|] == doc;
  }

  /** A list of token items carries exactly the dict's entries. */
  lemma {:induction false} TokenItemsEntries(counts: Dict<string, int>)
    ensures TokenEntriesOf(TokenItems(counts)) == counts
    ensures InfoEntriesOf(TokenItems(counts)) == []
  {
    if counts != [] {
      var n := |counts| - 1;
      TokenItemsEntries(counts[..n]);
      EntriesOfConcat(TokenItems(counts[..n]), [TokenItem(counts[n].0, counts[n].1)]);
    }
  }

  /** Only the first label of the table (`Name`) and its last (`Avatar URL`) are excluded. */
  lemma ExcludedLabels()
    ensures FieldLabels[0] in Excluded && FieldLabels[15] in Excluded
    ensures forall i :: 1 <= i < 15 ==> FieldLabels[i] !in Excluded
  {
  }

  /** Rows at both ends whose labels are excluded add no item. */
  lemma InfoItemsDropEnds(f: seq<(string, string)>)
    requires |f| >= 2 && f[0].0 in Excluded && f[|f| - 1].0 in Excluded
    ensures InfoItems(f) == InfoItems(f[1..|f| - 1])
  {
    var n := |f| - 1;
    var front := f[..n];
    assert f == front + [f[n]];
    InfoItemsConcat(front, [f[n]]);
    ExcludedAlone(f[n]);
    assert front == [f[0]] + f[1..n];
    InfoItemsConcat([f[0]], f[1..n]);
    ExcludedAlone(f[0]);
  }

  /** A single excluded row adds no item. */
  lemma ExcludedAlone(row: (string, string))
    requires row.0 in Excluded
    ensures InfoItems([row]) == []
  {
    assert [row][..0] == [];
  }


  /** The information list of every report: the table without its first row
      (`Name`) and its last (`Avatar URL`), fourteen items in declaration order. */
  lemma InfoList(node: Node)
    ensures |Fields(node)| == 16 && Fields(node)[0].0 == "Name" && Fields(node)[15].0 == "Avatar URL"
    ensures InfoItems(Fields(node)) == InfoItems(Fields(node)[1..15])
    ensures InfoEntriesOf(InfoItems(Fields(node))) == Fields(node)[1..15]
    ensures TokenEntriesOf(InfoItems(Fields(node))) == []
    ensures |InfoItems(Fields(node))| == 14
  {
    var f := Fields(node);
    var mid := f[1..15];
    ExcludedLabels();
    assert forall i :: 0 <= i < |mid| ==> mid[i].0 == FieldLabels[i + 1];
    InfoItemsEntries(mid);
    InfoItemsLength(mid);
    InfoItemsDropEnds(f);
  }

  lemma {:induction false} InfoItemsLength(fields: seq<(string, string)>)
    requires forall i :: 0 <= i < |fields| ==> fields[i].0 !in Excluded
    ensures |InfoItems(fields)| == |fields|
  {
    if fields != [] {
      InfoItemsLength(fields[..|fields| - 1]);
    }
  }

  /** Every item of the table shows its node value as is, or `''` when the node
      lacks the key; `Tags` shows the topics joined by `", "`. */
  lemma FieldValues(node: Node)
    ensures |Fields(node)| == |FieldKeys|
    ensures forall i :: 0 <= i < |FieldKeys| && i != TagsIndex ==>
      Fields(node)[i].1 == if FieldKeys[i] in node.fields then node.fields[FieldKeys[i]] else ""
    ensures FieldKeys[TagsIndex] == "topics" && Fields(node)[TagsIndex] == ("Tags", PyString.Join(node.topics, ", "))
  {
  }

  /** The token-count list appears exactly when some count survived. */
  lemma TokenSectionIff(node: Node, descriptionHtml: string)
    ensures TokenCountsStart in Report(node, descriptionHtml) <==> CountsOf(node.labels) != []
  {
    var doc := Report(node, descriptionHtml);
    var counts := CountsOf(node.labels);
    var head := ReportHead(node, descriptionHtml);
    var info := InfoItems(Fields(node));
    assert TokenCountsStart !in head by {
      forall i | 0 <= i < |head| ensures head[i] != TokenCountsStart {
        if 1 <= i < |info| + 1 {
          assert head[i] == info[i - 1];
        }
      }
    }
    if counts != [] {
      assert doc[|head|] == TokenCountsStart;
    } else {
      assert doc == head + [Footer];
    }
  }

  /** The token-count list carries exactly the dict's entries and no information entry. */
  lemma TokenSectionEntries(counts: Dict<string, int>)
    ensures InfoEntriesOf(TokenSection(counts)) == []
    ensures TokenEntriesOf(TokenSection(counts)) == counts
  {
    if counts != [] {
      TokenItemsEntries(counts);
      EntriesOfConcat([TokenCountsStart], TokenItems(counts));
      EntriesOfConcat([TokenCountsStart] + TokenItems(counts), [TokenCountsEnd]);
      assert [TokenCountsStart][..0] == [] && [TokenCountsEnd][..0] == [];
    }
  }

  /** Up to the end of its information list, the report carries the fourteen
      information entries and no token-count entry. */
  lemma ReportHeadEntries(node: Node, descriptionHtml: string)
    ensures InfoEntriesOf(ReportHead(node, descriptionHtml)) == Fields(node)[1..15]
    ensures TokenEntriesOf(ReportHead(node, descriptionHtml)) == []
  {
    var head := [Header(Text(node, "name"), Text(node, "avatar_url"), descriptionHtml)];
    var info := InfoItems(Fields(node));
    InfoList(node);
    EntriesOfConcat(head, info);
    EntriesOfConcat(head + info, [InfoEnd]);
    assert head[..0] == [] && [InfoEnd][..0] == [];
  }

  /** The report lists the card's fourteen information entries and then its
      token counts, one item each, in order, and no other entries. */
  lemma ReportEntries(node: Node, descriptionHtml: string)
    ensures InfoEntriesOf(Report(node, descriptionHtml)) == Fields(node)[1..15]
    ensures TokenEntriesOf(Report(node, descriptionHtml)) == CountsOf(node.labels)
  {
    var head := ReportHead(node, descriptionHtml);
    var section := TokenSection(CountsOf(node.labels));
    ReportHeadEntries(node, descriptionHtml);
    TokenSectionEntries(CountsOf(node.labels));
    EntriesOfConcat(head, section);
    BodyAndFooter(head + section);
  }

  /** The footer carries no entries. */
  lemma BodyAndFooter(body: seq<Block>)
    ensures InfoEntriesOf(body + [Footer]) == InfoEntriesOf(body)
    ensures TokenEntriesOf(body + [Footer]) == TokenEntriesOf(body)
  {
    EntriesOfConcat(body, [Footer]);
    assert [Footer][..0] == [];
  }

}
