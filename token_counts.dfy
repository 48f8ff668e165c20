/** The token counts shown on a card's report. A card carries labels; the
    first label titled `TOKEN_COUNTS` whose description parses as a JSON
    object supplies a count per text part. Parts whose count is zero, and the
    `total` entry, are dropped; each remaining key is made readable (`_`
    becomes a space, then Python's `title()`), and the results fill an
    insertion-ordered dict. */
module TokenCounts {
  import opened Wrappers
  import opened OrderedDict
  import PyString

  /** The title of the label whose description holds the counts. */
  const Sentinel: string := "TOKEN_COUNTS"

  /** What `json.loads` made of a label's description (of `'{}'` when the
      label has none): invalid JSON, or an object's entries in document order. */
  datatype Parsed = Malformed | Object(entries: seq<(string, int)>)

  /** A card label: its title (absent when the label has none) and its parsed description. */
  datatype Label = Label(title: Option<string>, description: Parsed)

  /** The display form of a raw key: every `_` turned into a space, then
      title-cased, so each run of letters starts upper case and goes on lower case. */
  function HumaniseKey(key: string): (r: string)
    ensures |r| == |key|
    ensures '_' !in r
    ensures forall i :: 0 <= i < |key| && key[i] == '_' ==> r[i] == ' '
    ensures forall i :: 0 <= i < |key| && PyString.IsCased(key[i]) ==>
      PyString.IsCased(r[i]) && PyString.Lower(r[i]) == PyString.Lower(key[i])
      && (PyString.IsUpper(r[i]) <==> i == 0 || !PyString.IsCased(key[i - 1]))
    ensures forall i :: 0 <= i < |key| && !PyString.IsCased(key[i]) && key[i] != '_' ==> r[i] == key[i]
  {
    var spaced := PyString.Replace(key, '_', ' ');
    var r := PyString.Title(spaced);
    assert forall i :: 0 <= i < |key| ==> PyString.IsCased(spaced[i]) == PyString.IsCased(key[i]);
    assert '_' !in r by {
      forall i | 0 <= i < |r| ensures r[i] != '_' {
        assert PyString.IsCased(spaced[i]) ==> PyString.IsCased(r[i]);
      }
    }
    r
  }

  /** Humanising a humanised key changes nothing. */
  lemma HumaniseKeyIdempotent(key: string)
    ensures HumaniseKey(HumaniseKey(key)) == HumaniseKey(key)
  {
    var h := HumaniseKey(key);
    PyString.ReplaceRemovesTarget(key, '_', ' ');
    assert PyString.Replace(h, '_', ' ') == h;
    PyString.TitleIdempotent(PyString.Replace(key, '_', ' '));
  }

  /** An entry survives when its count is non-zero and its raw key is not `total`. */
  predicate Kept(entry: (string, int)) {
    entry.1 != 0 && entry.0 != "total"
  }

  /** The dict the entries build, one assignment `counts[HumaniseKey(key)] = value`
      per surviving entry, in document order. */
  function Collect(entries: seq<(string, int)>): (r: Dict<string, int>)
    ensures KeysUnique(r)
    ensures forall i :: 0 <= i < |r| ==> r[i].1 != 0
  {
    if entries == [] then []
    else
      var previous := Collect(entries[..|entries| - 1]);
      var last := entries[|entries| - 1];
      if Kept(last) then Put(previous, HumaniseKey(last.0), last.1) else previous
  }

  /** Entry `j` survives and is displayed under `key`. */
  predicate Produces(entries: seq<(string, int)>, j: int, key: string) {
    0 <= j < |entries| && Kept(entries[j]) && HumaniseKey(entries[j].0) == key
  }

  /** A key is shown exactly when some surviving entry humanises to it. */
  lemma {:induction false} CollectHasKey(entries: seq<(string, int)>, key: string)
    ensures HasKey(Collect(entries), key) <==> exists j :: Produces(entries, j, key)
  {
    if entries != [] {
      var n := |entries| - 1;
      var init := entries[..n];
      var last := entries[n];
      CollectHasKey(init, key);
      assert forall j :: 0 <= j < n ==> init[j] == entries[j];
      if Kept(last) {
        PutKeys(Collect(init), HumaniseKey(last.0), last.1, key);
      }
      if HasKey(Collect(entries), key) {
        if HasKey(Collect(init), key) {
          var j :| Produces(init, j, key);
          assert Produces(entries, j, key);
        } else {
          assert Produces(entries, n, key);
        }
      }
      if exists j :: Produces(entries, j, key) {
        var j :| Produces(entries, j, key);
        if j < n {
          assert Produces(init, j, key);
        }
      }
    }
  }

  /** The value shown under a key is that of the last surviving entry for it:
      a later entry with the same display form overwrites an earlier one. */
  lemma {:induction false} CollectGet(entries: seq<(string, int)>, key: string, j: int)
    requires Produces(entries, j, key)
    requires forall j' :: j < j' < |entries| ==> !Produces(entries, j', key)
    ensures Get(Collect(entries), key) == Some(entries[j].1)
  {
    var n := |entries| - 1;
    var init := entries[..n];
    var last := entries[n];
    if j == n {
      GetPutSame(Collect(init), key, last.1);
    } else {
      assert init[j] == entries[j];
      forall j' | j < j' < n ensures !Produces(init, j', key) {
        assert init[j'] == entries[j'] && !Produces(entries, j', key);
      }
      CollectGet(init, key, j);
      assert !Produces(entries, n, key);
      if Kept(last) {
        GetPutOther(Collect(init), HumaniseKey(last.0), last.1, key);
      }
    }
  }

  /** The surviving entries under their display keys, in document order. */
  function Shown(entries: seq<(string, int)>): seq<(string, int)> {
    if entries == [] then []
    else
      var last := entries[|entries| - 1];
      Shown(entries[..|entries| - 1]) + if Kept(last) then [(HumaniseKey(last.0), last.1)] else []
  }

  /** No two surviving entries share a display key. */
  predicate DistinctDisplayKeys(entries: seq<(string, int)>) {
    forall i, j :: 0 <= i < j < |entries| && Kept(entries[i]) && Kept(entries[j]) ==>
      HumaniseKey(entries[i].0) != HumaniseKey(entries[j].0)
  }

  /** When no two surviving keys collide, the dict is simply the surviving
      entries, humanised, in document order. */
  lemma {:induction false} CollectInOrder(entries: seq<(string, int)>)
    requires DistinctDisplayKeys(entries)
    ensures Collect(entries) == Shown(entries)
  {
    if entries != [] {
      var n := |entries| - 1;
      var init := entries[..n];
      var last := entries[n];
      assert DistinctDisplayKeys(init);
      CollectInOrder(init);
      if Kept(last) {
        var key := HumaniseKey(last.0);
        CollectHasKey(init, key);
        forall j | 0 <= j < n ensures !Produces(init, j, key) {
          assert init[j] == entries[j];
        }
        PutKeys(Collect(init), key, last.1, key);
      }
    }
  }

  /** The display keys of the surviving entries in document order, each kept
      at its first occurrence only. */
  function FirstKeys(entries: seq<(string, int)>): seq<string> {
    if entries == [] then []
    else
      var previous := FirstKeys(entries[..|entries| - 1]);
      var last := entries[|entries| - 1];
      if Kept(last) && HumaniseKey(last.0) !in previous then previous + [HumaniseKey(last.0)] else previous
  }

  /** The dict's keys, in order, are the display keys of the surviving entries
      with later repeats dropped: a key that humanises like an earlier one
      keeps the earlier one's position, while its value is the later one's
      (`CollectGet`). */
  lemma {:induction false} CollectKeyOrder(entries: seq<(string, int)>)
    ensures Keys(Collect(entries)) == FirstKeys(entries)
  {
    if entries != [] {
      var n := |entries| - 1;
      var init := entries[..n];
      var last := entries[n];
      CollectKeyOrder(init);
      var d := Collect(init);
      if Kept(last) {
        var key := HumaniseKey(last.0);
        HasKeyInKeys(d, key);
        PutKeys(d, key, last.1, key);
        if HasKey(d, key) {
          assert Keys(Put(d, key, last.1)) == Keys(d);
        } else {
          assert Keys(d + [(key, last.1)]) == Keys(d) + [key];
        }
      }
    }
  }

  /** A label the scan stops at: titled `TOKEN_COUNTS` and parsed successfully. */
  predicate Decisive(cardLabel: Label) {
    cardLabel.title == Some(Sentinel) && cardLabel.description.Object?
  }

  /** The token counts of a card with these labels: those of the first decisive
      label, or none. */
  function CountsOf(labels: seq<Label>): Dict<string, int> {
    if labels == [] then []
    else if Decisive(labels[0]) then Collect(labels[0].description.entries)
    else CountsOf(labels[1..])
  }

  /** The scan over the labels, with the inner loop over the entries and the
      early exit after the first label that parses. */
  method ExtractTokenCounts(labels: seq<Label>) returns (counts: Dict<string, int>)
    ensures counts == CountsOf(labels)
    ensures KeysUnique(counts)
  {
    counts := [];
    var i := 0;
    while i < |labels|
      invariant 0 <= i <= |labels|
      invariant counts == []
      invariant CountsOf(labels[i..]) == CountsOf(labels)
    {
      var cardLabel := labels[i];
      if cardLabel.title == Some(Sentinel) {
        match cardLabel.description
        case Malformed =>
        case Object(entries) =>
          var j := 0;
          while j < |entries|
            invariant 0 <= j <= |entries|
            invariant counts == Collect(entries[..j])
          {
            var (key, value) := entries[j];
            if value != 0 && key != "total" {
              counts := Put(counts, HumaniseKey(key), value);
            }
            assert entries[..j + 1][..j] == entries[..j];
            j := j + 1;
          }
          assert entries[..j] == entries;
          return;
      }
      assert labels[i..][1..] == labels[i + 1..];
      i := i + 1;
    }
  }

  /** A label that does not decide the scan, whether its title differs or its
      JSON is invalid, contributes nothing and the scan goes on past it. */
  lemma {:induction false} SkippedLabelIgnored(before: seq<Label>, cardLabel: Label, after: seq<Label>)
    requires !Decisive(cardLabel)
    ensures CountsOf(before + [cardLabel] + after) == CountsOf(before + after)
  {
    if before == [] {
      assert before + [cardLabel] + after == [cardLabel] + after;
      assert before + after == after;
      assert ([cardLabel] + after)[1..] == after;
    } else {
      SkippedLabelIgnored(before[1..], cardLabel, after);
      assert (before + [cardLabel] + after)[1..] == before[1..] + [cardLabel] + after;
      assert (before + after)[1..] == before[1..] + after;
    }
  }

  /** The first decisive label alone decides the counts: labels after it are never read. */
  lemma {:induction false} FirstDecisiveLabelWins(before: seq<Label>, cardLabel: Label, after: seq<Label>)
    requires forall k :: 0 <= k < |before| ==> !Decisive(before[k])
    requires Decisive(cardLabel)
    ensures CountsOf(before + [cardLabel] + after) == Collect(cardLabel.description.entries)
  {
    if before != [] {
      FirstDecisiveLabelWins(before[1..], cardLabel, after);
      assert (before + [cardLabel] + after)[1..] == before[1..] + [cardLabel] + after;
    }
  }

  /** Without a decisive label there are no counts. */
  lemma {:induction false} NoDecisiveLabelNoCounts(labels: seq<Label>)
    requires forall k :: 0 <= k < |labels| ==> !Decisive(labels[k])
    ensures CountsOf(labels) == []
  {
    if labels != [] {
      NoDecisiveLabelNoCounts(labels[1..]);
    }
  }

  /** `{"total": 10, "foo_bar": 0, "baz": 5}` shows exactly `Baz: 5`. */
  lemma ExampleCounts()
    ensures CountsOf([Label(Some(Sentinel), Object([("total", 10), ("foo_bar", 0), ("baz", 5)]))])
      == [("Baz", 5)]
  {
    var entries := [("total", 10), ("foo_bar", 0), ("baz", 5)];
    assert HumaniseKey("baz") == "Baz";
    assert entries[..2][..1] == [("total", 10)];
    assert Collect([("total", 10)]) == [];
    assert entries[..2] == [("total", 10), ("foo_bar", 0)];
    assert Collect(entries[..2]) == [];
  }
}
