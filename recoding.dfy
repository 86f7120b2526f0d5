/**
 * Site recoding: the values of an identifying column are replaced by meaningless
 * labels "<prefix>_A", "<prefix>_B", ... handed out in order of first
 * appearance. A registry keeps one recoder per column and renders the
 * confidential mapping ("sidekick") that stays at the site.
 */
module Recoding {
  import opened Strings
  import opened Types
  import opened Sorting

  /** The capital letter standing for digit `d` of a label. */
  function Letter(d: nat): (c: char)
    requires d < 26
    ensures IsAsciiUpper(c) && c as int - 'A' as int == d
  {
    ('A' as int + d) as char
  }

  /** A non-empty word of capital letters. */
  predicate IsLabel(s: string) {
    |s| >= 1 && forall i :: 0 <= i < |s| ==> IsAsciiUpper(s[i])
  }

  /** Bijective base-26 numeral of `n`: 0 is "A", 25 is "Z", 26 is "AA", 27 is "AB". */
  function Label(n: nat): (r: string)
    ensures IsLabel(r)
    ensures |r| == 1 <==> n < 26
  {
    if n < 26 then [Letter(n)] else Label(n / 26 - 1) + [Letter(n % 26)]
  }

  /** The index a label stands for: the inverse of `Label`. */
  function LabelIndex(s: string): (n: nat)
    requires IsLabel(s)
    decreases |s|
  {
    var d := s[|s| - 1] as int - 'A' as int;
    if |s| == 1 then d else (LabelIndex(s[..|s| - 1]) + 1) * 26 + d
  }

  lemma {:induction false} LabelIndexOfLabel(n: nat)
    ensures LabelIndex(Label(n)) == n
    decreases n
  {
    if n >= 26 {
      var p := Label(n / 26 - 1);
      assert Label(n)[..|Label(n)| - 1] == p;
      LabelIndexOfLabel(n / 26 - 1);
    }
  }

  lemma {:induction false} LabelOfLabelIndex(s: string)
    requires IsLabel(s)
    ensures Label(LabelIndex(s)) == s
    decreases |s|
  {
    if |s| > 1 {
      var p := s[..|s| - 1];
      var d := s[|s| - 1] as int - 'A' as int;
      assert IsLabel(p);
      LabelOfLabelIndex(p);
      var n := LabelIndex(s);
      assert n == (LabelIndex(p) + 1) * 26 + d;
      assert n / 26 - 1 == LabelIndex(p) && n % 26 == d;
      assert s == p + [s[|s| - 1]];
    }
  }

  /** Distinct indices get distinct labels, and every label is the label of some index. */
  lemma LabelIsBijective(m: nat, n: nat, s: string)
    ensures Label(m) == Label(n) ==> m == n
    ensures IsLabel(s) ==> exists k: nat :: Label(k) == s
  {
    LabelIndexOfLabel(m);
    LabelIndexOfLabel(n);
    if IsLabel(s) {
      LabelOfLabelIndex(s);
    }
  }

  lemma LabelExamples()
    ensures Label(0) == "A" && Label(1) == "B" && Label(25) == "Z"
    ensures Label(26) == "AA" && Label(27) == "AB" && Label(51) == "AZ" && Label(52) == "BA"
  {
  }

  /**
   * `index_to_label`: the digits are produced least significant first and
   * prepended until the quotient drops below 26.
   */
  method IndexToLabel(index: nat) returns (result: string)
    ensures result == Label(index)
  {
    result := "";
    var n := index;
    while true
      invariant Label(index) == Label(n) + result
      decreases n
    {
      var remainder := n % 26;
      result := [Letter(remainder)] + result;
      if n < 26 {
        break;
      }
      assert Label(n) == Label(n / 26 - 1) + [Letter(remainder)];
      n := n / 26 - 1;
    }
  }

  /** The recoded form of the `i`-th distinct value under `prefix`. */
  function Tagged(prefix: string, i: nat): string {
    prefix + "_" + Label(i)
  }

  lemma TaggedInjective(prefix: string, i: nat, j: nat)
    ensures Tagged(prefix, i) == Tagged(prefix, j) ==> i == j
  {
    if Tagged(prefix, i) == Tagged(prefix, j) {
      assert Tagged(prefix, i)[|prefix| + 1..] == Label(i);
      assert Tagged(prefix, j)[|prefix| + 1..] == Label(j);
      LabelIsBijective(i, j, "");
    }
  }

  /** A map sending distinct keys to distinct values has as many values as keys. */
  lemma {:induction false} InjectiveValues<K, V>(m: map<K, V>)
    requires forall a, b :: a in m && b in m && a != b ==> m[a] != m[b]
    ensures |m.Values| == |m|
    decreases |m|
  {
    if |m| > 0 {
      var k :| k in m;
      var m' := m - {k};
      assert m'.Keys == m.Keys - {k};
      forall v ensures v in m'.Values <==> v in m.Values - {m[k]} {
        if v in m'.Values {
          var k' :| k' in m' && m'[k'] == v;
          assert m[k'] == v;
        }
        if v in m.Values && v != m[k] {
          var k' :| k' in m && m[k'] == v;
          assert k' in m' && m'[k'] == v;
        }
      }
      assert m'.Values == m.Values - {m[k]};
      InjectiveValues(m');
    }
  }

  /** `ValueRecoder`: the labels given out so far for one column. */
  class ValueRecoder {
    var mappings: map<string, string>
    var counter: nat
    const prefix: string
    /** The originals in order of first appearance: `order[i]` received label `i`. */
    ghost var order: seq<string>

    ghost predicate Valid()
      reads this
    {
      && counter == |order| == |mappings|
      && (forall v :: v in mappings <==> v in order)
      && (forall i :: 0 <= i < |order| ==> mappings[order[i]] == Tagged(prefix, i))
    }

    /** `ValueRecoder::new`: no mappings, counter at zero. */
    constructor(prefix: string)
      ensures Valid()
      ensures this.prefix == prefix && mappings == map[] && counter == 0 && order == []
    {
      this.prefix := prefix;
      mappings := map[];
      counter := 0;
      order := [];
    }

    /** `ValueRecoder::for_sites`: a recoder whose labels read "Site_A", "Site_B", ... */
    static method ForSites() returns (r: ValueRecoder)
      ensures fresh(r) && r.Valid()
      ensures r.prefix == "Site" && r.mappings == map[] && r.counter == 0 && r.order == []
    {
      r := new ValueRecoder("Site");
    }

    /** `generate_label`: the label for the current counter, which then advances. */
    method GenerateLabel() returns (tag: string)
      modifies this
      ensures tag == Tagged(prefix, old(counter))
      ensures counter == old(counter) + 1
      ensures mappings == old(mappings) && order == old(order)
    {
      var letters := IndexToLabel(counter);
      counter := counter + 1;
      tag := prefix + "_" + letters;
    }

    /**
     * `recode`: a value seen before gets its earlier label back and nothing
     * changes; a new value gets the next label and is remembered.
     */
    method Recode(original: string) returns (tag: string)
      requires Valid()
      modifies this
      ensures Valid()
      ensures original in mappings && mappings[original] == tag
      ensures old(original in mappings) ==>
        tag == old(mappings[original]) && mappings == old(mappings)
        && counter == old(counter) && order == old(order)
      ensures old(original !in mappings) ==>
        tag == Tagged(prefix, old(counter)) && mappings == old(mappings)[original := tag]
        && counter == old(counter) + 1 && order == old(order) + [original]
    {
      if original in mappings {
        return mappings[original];
      }
      tag := GenerateLabel();
      mappings := mappings[original := tag];
      order := order + [original];
    }

    /** Distinct originals never share a label. */
    lemma MappingsInjective()
      requires Valid()
      ensures forall a, b :: a in mappings && b in mappings && a != b ==> mappings[a] != mappings[b]
    {
      forall a, b | a in mappings && b in mappings && a != b
        ensures mappings[a] != mappings[b]
      {
        var i :| 0 <= i < |order| && order[i] == a;
        var j :| 0 <= j < |order| && order[j] == b;
        TaggedInjective(prefix, i, j);
      }
    }

    /** `count`: the number of mappings, which is also the next label's index. */
    function Count(): (n: nat)
      reads this
      ensures Valid() ==> n == counter
    {
      |mappings|
    }

    /** `get_reverse_mappings`: recoded value to original, one entry per mapping. */
    function ReverseMappings(): (r: map<string, string>)
      reads this
      requires Valid()
      ensures forall o :: o in mappings ==> mappings[o] in r && r[mappings[o]] == o
      ensures forall l :: l in r ==> r[l] in mappings && mappings[r[l]] == l
      ensures r.Keys == mappings.Values
      ensures |r| == |mappings|
    {
      MappingsInjective();
      InjectiveValues(mappings);
      map o | o in mappings :: mappings[o] := o
    }
  }

  /** The sidekick's opening lines; the timestamp is the caller's. */
  function SidekickHeader(timestamp: string): seq<string> {
    [ "# ERT-Manifest Recode Mapping",
      "# CONFIDENTIAL - Keep this file secure at your site",
      "# Generated: " + timestamp,
      "" ]
  }

  /** One "<recoded> = <original>" line per label that the reverse mapping holds. */
  function MappingLines(labels: seq<string>, reverse: map<string, string>): (lines: seq<string>)
    ensures (forall l :: l in labels ==> l in reverse) ==>
      |lines| == |labels| && forall i :: 0 <= i < |labels| ==> lines[i] == labels[i] + " = " + reverse[labels[i]]
  {
    if labels == [] then []
    else
      var last := labels[|labels| - 1];
      assert forall l :: l in labels[..|labels| - 1] ==> l in labels;
      MappingLines(labels[..|labels| - 1], reverse) + (if last in reverse then [last + " = " + reverse[last]] else [])
  }

  /** The mapping lines of one column, one label at a time. */
  method RenderMappings(labels: seq<string>, reverse: map<string, string>) returns (lines: seq<string>)
    ensures lines == MappingLines(labels, reverse)
  {
    lines := [];
    var j := 0;
    while j < |labels|
      invariant 0 <= j <= |labels|
      invariant lines == MappingLines(labels[..j], reverse)
    {
      var recoded := labels[j];
      if recoded in reverse {
        lines := lines + [recoded + " = " + reverse[recoded]];
      }
      assert labels[..j + 1][..j] == labels[..j];
      j := j + 1;
    }
    assert labels[..j] == labels;
  }

  /** Blocks of lines, one after another. */
  function Flatten(blocks: seq<seq<string>>): seq<string> {
    if blocks == [] then [] else Flatten(blocks[..|blocks| - 1]) + blocks[|blocks| - 1]
  }

  lemma FlattenAppend(blocks: seq<seq<string>>, block: seq<string>)
    ensures Flatten(blocks + [block]) == Flatten(blocks) + block
  {
    assert (blocks + [block])[..|blocks|] == blocks;
  }

  /** A column's block: its heading, then its mapping lines in ascending label order, then a blank line. */
  ghost function Block(column: nat, name: string, reverse: map<string, string>): seq<string> {
    StringOrderIsTotal();
    ["## Column " + NatToString(column + 1) + ": " + name, ""]
    + MappingLines(Ascending(reverse.Keys, LexLe), reverse) + [""]
  }

  /** The blocks of the given columns in the given order; a column without a recoder or a name has none. */
  ghost function BlocksOf(columns: seq<nat>, reverses: map<nat, map<string, string>>,
                          names: map<nat, string>): seq<seq<string>>
  {
    if columns == [] then []
    else
      var column := columns[|columns| - 1];
      BlocksOf(columns[..|columns| - 1], reverses, names)
      + [if column in reverses && column in names then Block(column, names[column], reverses[column]) else []]
  }

  /** One column's block, its labels collected and sorted. */
  method RenderColumn(column: nat, name: string, reverse: map<string, string>) returns (block: seq<string>)
    ensures block == Block(column, name, reverse)
  {
    StringOrderIsTotal();
    StringOrderIsAntisymmetric();
    var labels := SortedElements(reverse.Keys, LexLe);
    var mappingLines := RenderMappings(labels, reverse);
    block := ["## Column " + NatToString(column + 1) + ": " + name, ""] + mappingLines + [""];
  }

  /** The blocks of the given columns, one after another. */
  method RenderBlocks(columns: seq<nat>, reverses: map<nat, map<string, string>>, names: map<nat, string>)
    returns (body: seq<string>)
    ensures body == Flatten(BlocksOf(columns, reverses, names))
  {
    body := [];
    var i := 0;
    while i < |columns|
      invariant 0 <= i <= |columns|
      invariant body == Flatten(BlocksOf(columns[..i], reverses, names))
    {
      var column := columns[i];
      var block := [];
      if column in reverses && column in names {
        block := RenderColumn(column, names[column], reverses[column]);
      }
      assert columns[..i + 1][..i] == columns[..i];
      FlattenAppend(BlocksOf(columns[..i], reverses, names), block);
      body := body + block;
      i := i + 1;
    }
    assert columns[..i] == columns;
  }

  /** The sidekick's lines for the given columns: the header, then one block per column in ascending order. */
  ghost function Sidekick(timestamp: string, columns: set<nat>, reverses: map<nat, map<string, string>>,
                          names: map<nat, string>): seq<string>
  {
    NatOrder();
    SidekickHeader(timestamp) + Flatten(BlocksOf(Ascending(columns, NatLe), reverses, names))
  }

  /** The sidekick text: its lines joined by newlines. */
  method RenderSidekick(timestamp: string, columns: set<nat>, reverses: map<nat, map<string, string>>,
                        names: map<nat, string>) returns (content: string)
    ensures content == Join(Sidekick(timestamp, columns, reverses, names), "\n")
  {
    NatOrder();
    var sorted := SortedElements(columns, NatLe);
    var body := RenderBlocks(sorted, reverses, names);
    content := Join(SidekickHeader(timestamp) + body, "\n");
  }

  /** `RecodeRegistry`: a recoder and a name per recoded column. */
  class RecodeRegistry {
    var recoders: map<nat, ValueRecoder>
    var columnNames: map<nat, string>
    ghost var Repr: set<ValueRecoder>
    /** The column each recoder serves: no recoder serves two columns. */
    ghost var owner: map<ValueRecoder, nat>

    ghost predicate Valid()
      reads this, Repr
    {
      && (forall c :: c in recoders ==>
            recoders[c] in Repr && recoders[c].Valid() && recoders[c] in owner && owner[recoders[c]] == c)
      && recoders.Keys == columnNames.Keys
    }

    /** `RecodeRegistry::new`: no column is recoded. */
    constructor()
      ensures Valid() && recoders == map[] && columnNames == map[] && Repr == {}
    {
      recoders := map[];
      columnNames := map[];
      Repr := {};
      owner := map[];
    }

    /** `is_recoded`. */
    predicate IsRecoded(column: nat)
      reads this
    {
      column in recoders
    }

    /**
     * `register_column`: the column gets a fresh recoder (replacing any it
     * had) and its name; the other columns keep theirs.
     */
    method RegisterColumn(column: nat, name: string, prefix: string)
      requires Valid()
      modifies this
      ensures Valid()
      ensures column in recoders && recoders == old(recoders)[column := recoders[column]]
      ensures fresh(recoders[column])
      ensures Repr == old(Repr) + {recoders[column]}
      ensures recoders[column].prefix == prefix && recoders[column].mappings == map[] && recoders[column].counter == 0
      ensures columnNames == old(columnNames)[column := name]
    {
      var r := new ValueRecoder(prefix);
      Install(column, name, r);
    }

    /** The registry with `r` as the recoder of `column`, under `name`. */
    method Install(column: nat, name: string, r: ValueRecoder)
      requires Valid() && r.Valid() && r !in Repr
      modifies this
      ensures Valid()
      ensures recoders == old(recoders)[column := r] && columnNames == old(columnNames)[column := name]
      ensures Repr == old(Repr) + {r}
    {
      ServedAfter(column, r);
      recoders := recoders[column := r];
      columnNames := columnNames[column := name];
      Repr := Repr + {r};
      owner := owner[r := column];
    }

    /** Installing a valid recoder that serves no column keeps every recoder serving its own column. */
    lemma ServedAfter(column: nat, r: ValueRecoder)
      requires Valid() && r.Valid() && r !in Repr
      ensures var recs, own := recoders[column := r], owner[r := column];
        forall c :: c in recs ==> recs[c] in Repr + {r} && recs[c].Valid() && recs[c] in own && own[recs[c]] == c
    {
      var recs, own := recoders[column := r], owner[r := column];
      forall c | c in recs
        ensures recs[c] in Repr + {r} && recs[c].Valid() && recs[c] in own && own[recs[c]] == c
      {
        if c != column {
          assert recs[c] == recoders[c] && recoders[c] in Repr;
        }
      }
    }

    /**
     * `recode` on the registry: `None` and no change for a column that is not
     * recoded; otherwise the column's recoder answers, and no other recoder changes.
     */
    method Recode(column: nat, original: string) returns (r: Option<string>)
      requires Valid()
      modifies Repr
      ensures Valid()
      ensures column !in recoders ==> r.None? && unchanged(Repr)
      ensures column in recoders ==>
        && r.Some?
        && original in recoders[column].mappings && recoders[column].mappings[original] == r.value
        && (old(original in recoders[column].mappings) ==>
              r.value == old(recoders[column].mappings[original])
              && recoders[column].mappings == old(recoders[column].mappings))
        && (old(original !in recoders[column].mappings) ==>
              r.value == Tagged(recoders[column].prefix, old(recoders[column].counter))
              && recoders[column].mappings == old(recoders[column].mappings)[original := r.value])
      ensures forall d :: d in recoders && d != column ==> unchanged(recoders[d])
      ensures column in recoders ==> HasRecodings()
    {
      if column !in recoders {
        return None;
      }
      var recoder := recoders[column];
      var tag := recoder.Recode(original);
      r := Some(tag);
      forall d | d in recoders
        ensures recoders[d] in Repr && recoders[d].Valid() && recoders[d] in owner && owner[recoders[d]] == d
      {
        if d != column {
          assert owner[recoders[d]] != owner[recoder];
        }
      }
      assert recoder.Count() > 0;
    }

    /** `get_recoded_values`: the column's labels, sorted. */
    method GetRecodedValues(column: nat) returns (r: Option<seq<string>>)
      requires Valid()
      ensures column !in recoders ==> r.None?
      ensures column in recoders ==> r.Some? && |r.value| == |recoders[column].mappings|
      ensures column in recoders ==> (StringOrderIsTotal(); r.value == Ascending(recoders[column].mappings.Values, LexLe))
    {
      if column !in recoders {
        return None;
      }
      var recoder := recoders[column];
      StringOrderIsTotal();
      StringOrderIsAntisymmetric();
      var values := SortedElements(recoder.mappings.Values, LexLe);
      AscendingIsSortedListing(recoder.mappings.Values, LexLe);
      recoder.MappingsInjective();
      InjectiveValues(recoder.mappings);
      r := Some(values);
    }

    /** Each recoded column's reverse mapping. */
    function ReverseMaps(): map<nat, map<string, string>>
      reads this, Repr
      requires Valid()
    {
      map c | c in recoders :: recoders[c].ReverseMappings()
    }

    /** The sidekick's lines: the header, then one block per column in ascending column order. */
    ghost function SidekickLines(timestamp: string): seq<string>
      reads this, Repr
      requires Valid()
    {
      Sidekick(timestamp, recoders.Keys, ReverseMaps(), columnNames)
    }

    /** `generate_sidekick_content`, with the generation time passed in. */
    method GenerateSidekickContent(timestamp: string) returns (content: string)
      requires Valid()
      ensures content == Join(SidekickLines(timestamp), "\n")
    {
      content := RenderSidekick(timestamp, recoders.Keys, ReverseMaps(), columnNames);
    }

    /** `has_recodings`: some recoded column has handed out a label. */
    predicate HasRecodings()
      reads this, Repr
      requires Valid()
    {
      exists c :: c in recoders && recoders[c].Count() > 0
    }
  }
}
