/**
 * The step of the PPE compliance app that turns the detector's rows into what is
 * shown: the label-to-status lookup, the box colour rule, one annotation per
 * detection, and the per-label summary lines.
 */
module Compliance {
  import opened Text
  import opened Sequences

  /** One row of the detector's result table: class name and integer box corners. */
  datatype Row = Row(name: string, xmin: int, ymin: int, xmax: int, ymax: int)

  datatype Point = Point(x: int, y: int)

  /** An RGB colour triple. */
  datatype Color = Color(r: int, g: int, b: int)

  const Green := Color(0, 255, 0)
  const Red := Color(255, 0, 0)

  /** What the annotation pass draws for one detection: its box, colour, text and text anchor. */
  datatype Annotation = Annotation(topLeft: Point, bottomRight: Point, color: Color, text: string, anchor: Point)

  /** One line of the compliance summary: a label, how many rows carry it, and the line text. */
  datatype SummaryEntry = SummaryEntry(name: string, count: nat, text: string)

  /** The fixed table from detector class to displayed status. */
  const ComplianceMap: map<string, string> := map[
    "Hardhat" := "✅ Compliant",
    "Safety Vest" := "✅ Compliant",
    "Mask" := "✅ Compliant",
    "NO-Hardhat" := "❌ Missing Hardhat",
    "NO-Safety Vest" := "❌ Missing Vest",
    "NO-Mask" := "❌ Missing Mask",
    "Person" := "👤 Worker",
    "machinery" := "⚙️ Machinery",
    "vehicle" := "🚗 Vehicle",
    "Safety Cone" := "🟠 Cone"
  ]

  /** `compliance_map.get(label, label)`: the mapped status, or the label itself. */
  function Display(name: string): string
  {
    if name in ComplianceMap then ComplianceMap[name] else name
  }

  /** Each of the ten known classes is displayed as its status string. */
  lemma DisplayKnownLabels()
    ensures Display("Hardhat") == "✅ Compliant"
    ensures Display("Safety Vest") == "✅ Compliant"
    ensures Display("Mask") == "✅ Compliant"
    ensures Display("NO-Hardhat") == "❌ Missing Hardhat"
    ensures Display("NO-Safety Vest") == "❌ Missing Vest"
    ensures Display("NO-Mask") == "❌ Missing Mask"
    ensures Display("Person") == "👤 Worker"
    ensures Display("machinery") == "⚙️ Machinery"
    ensures Display("vehicle") == "🚗 Vehicle"
    ensures Display("Safety Cone") == "🟠 Cone"
    ensures ComplianceMap.Keys == {"Hardhat", "Safety Vest", "Mask", "NO-Hardhat", "NO-Safety Vest",
                                   "NO-Mask", "Person", "machinery", "vehicle", "Safety Cone"}
  {
  }

  /** A class outside the table is displayed as its own name: never dropped, never replaced. */
  lemma DisplayUnmapped(name: string)
    requires name !in ComplianceMap
    ensures Display(name) == name
  {
  }

  /** The box colour: red exactly when the label contains "NO-", green otherwise. */
  function BoxColor(name: string): (c: Color)
    ensures c == Red <==> exists i :: OccursAt(name, "NO-", i)
    ensures c == Green <==> !exists i :: OccursAt(name, "NO-", i)
  {
    if !Contains(name, "NO-") then Green else Red
  }

  /** A name containing "NO-" at its start is drawn red. */
  lemma RedWhenMarkerLeads(name: string)
    requires "NO-" <= name
    ensures BoxColor(name) == Red
  {
    assert OccursAt(name, "NO-", 0);
  }

  /** A name with no '-' cannot contain "NO-", so it is drawn green. */
  lemma GreenWithoutDash(name: string)
    requires '-' !in name
    ensures BoxColor(name) == Green
  {
    forall i | 0 <= i && i + 3 <= |name|
      ensures !OccursAt(name, "NO-", i)
    {
      assert name[i..i + 3][2] == name[i + 2];
    }
  }

  /** Among the known classes, red boxes are exactly the ones whose status is a missing-item warning. */
  lemma RedExactlyForMissingStatus()
    ensures forall name :: name in ComplianceMap ==>
      (BoxColor(name) == Red <==> ComplianceMap[name][0] == '❌')
  {
    DisplayKnownLabels();
    forall name | name in ComplianceMap
      ensures BoxColor(name) == Red <==> ComplianceMap[name][0] == '❌'
    {
      if name == "NO-Hardhat" || name == "NO-Safety Vest" || name == "NO-Mask" {
        RedWhenMarkerLeads(name);
      } else if name == "Hardhat" || name == "Safety Vest" || name == "Mask" {
        GreenWithoutDash(name);
      } else if name == "Person" || name == "machinery" || name == "vehicle" {
        GreenWithoutDash(name);
      } else {
        assert name == "Safety Cone";
        GreenWithoutDash(name);
      }
    }
  }

  /**
   * The annotation pass: one record per detection row, in row order, with the
   * box corners, the colour rule, the displayed status, and the text placed
   * ten pixels above the top-left corner.
   */
  method Annotate(rows: seq<Row>) returns (marks: seq<Annotation>)
    ensures |marks| == |rows|
    ensures forall i :: 0 <= i < |rows| ==>
      && marks[i].topLeft == Point(rows[i].xmin, rows[i].ymin)
      && marks[i].bottomRight == Point(rows[i].xmax, rows[i].ymax)
      && marks[i].color == BoxColor(rows[i].name)
      && marks[i].text == Display(rows[i].name)
      && marks[i].anchor == Point(rows[i].xmin, rows[i].ymin - 10)
  {
    marks := [];
    for i := 0 to |rows|
      invariant |marks| == i
      invariant forall k :: 0 <= k < i ==>
        && marks[k].topLeft == Point(rows[k].xmin, rows[k].ymin)
        && marks[k].bottomRight == Point(rows[k].xmax, rows[k].ymax)
        && marks[k].color == BoxColor(rows[k].name)
        && marks[k].text == Display(rows[k].name)
        && marks[k].anchor == Point(rows[k].xmin, rows[k].ymin - 10)
    {
      var row := rows[i];
      marks := marks + [Annotation(Point(row.xmin, row.ymin), Point(row.xmax, row.ymax), BoxColor(row.name),
                                   Display(row.name), Point(row.xmin, row.ymin - 10))];
    }
  }

  /** The `name` column of the result table. */
  function Names(rows: seq<Row>): seq<string>
  {
    seq(|rows|, i requires 0 <= i < |rows| => rows[i].name)
  }

  /** The text of one summary line: `f"{compliance_map.get(label, label)}: {count}"`. */
  function LineText(name: string, count: nat): string
  {
    Display(name) + ": " + DecimalString(count)
  }

  /** One entry per label of `labels`, counted over `names`. */
  function Entries(labels: seq<string>, names: seq<string>): seq<SummaryEntry>
  {
    seq(|labels|, i requires 0 <= i < |labels| =>
      SummaryEntry(labels[i], Occurrences(names, labels[i]), LineText(labels[i], Occurrences(names, labels[i]))))
  }

  /** Extending the label list by one extends the entries by that label's entry. */
  lemma EntriesSnoc(labels: seq<string>, names: seq<string>, name: string)
    ensures Entries(labels + [name], names)
         == Entries(labels, names) + [SummaryEntry(name, Occurrences(names, name), LineText(name, Occurrences(names, name)))]
  {
  }

  /** The compliance summary of a result table: one entry per distinct label, in order of first appearance. */
  function Summary(rows: seq<Row>): seq<SummaryEntry>
  {
    Entries(Unique(Names(rows)), Names(rows))
  }

  /** Sum of the counts of a list of summary entries. */
  function TotalCount(es: seq<SummaryEntry>): nat
  {
    if es == [] then 0 else TotalCount(es[..|es| - 1]) + es[|es| - 1].count
  }

  /**
   * The summary loop: for each distinct label, in order of first appearance,
   * count the rows carrying it and build the line shown for it.
   */
  method Summarize(rows: seq<Row>) returns (entries: seq<SummaryEntry>)
    ensures entries == Summary(rows)
  {
    var names := Names(rows);
    var labels := Unique(names);
    entries := [];
    for i := 0 to |labels|
      invariant entries == Entries(labels[..i], names)
    {
      var name := labels[i];
      var count := 0;
      for j := 0 to |names|
        invariant count == Occurrences(names[..j], name)
      {
        assert names[..j + 1][..j] == names[..j];
        if names[j] == name {
          count := count + 1;
        }
      }
      assert names[..|names|] == names;
      EntriesSnoc(labels[..i], names, name);
      assert labels[..i + 1] == labels[..i] + [name];
      entries := entries + [SummaryEntry(name, count, LineText(name, count))];
    }
    assert labels[..|labels|] == labels;
  }

  /**
   * The summary lists every label that occurs in the rows, exactly once, in
   * order of first appearance, and no other label.
   */
  lemma SummaryListsEachLabelOnce(rows: seq<Row>)
    ensures forall name :: name in Names(rows) <==>
      exists i :: 0 <= i < |Summary(rows)| && Summary(rows)[i].name == name
    ensures forall i, j :: 0 <= i < j < |Summary(rows)| ==> Summary(rows)[i].name != Summary(rows)[j].name
    ensures forall i, j :: 0 <= i < j < |Summary(rows)| ==>
      FirstIndex(Names(rows), Summary(rows)[i].name) < FirstIndex(Names(rows), Summary(rows)[j].name)
  {
    var names, s := Names(rows), Summary(rows);
    var u := Unique(names);
    forall name
      ensures name in names <==> exists i :: 0 <= i < |s| && s[i].name == name
    {
      if name in names {
        var i :| 0 <= i < |u| && u[i] == name;
        assert s[i].name == name;
      }
    }
  }

  /**
   * Each summary count is the number of rows carrying that label, hence at
   * least one, and each line reads "<status>: <count>".
   */
  lemma SummaryCounts(rows: seq<Row>)
    ensures forall i :: 0 <= i < |Summary(rows)| ==>
      && Summary(rows)[i].count == multiset(Names(rows))[Summary(rows)[i].name]
      && Summary(rows)[i].count >= 1
      && Summary(rows)[i].text == Display(Summary(rows)[i].name) + ": " + DecimalString(Summary(rows)[i].count)
  {
    var names, s := Names(rows), Summary(rows);
    forall i | 0 <= i < |s|
      ensures s[i].count >= 1
    {
      assert s[i].name in names;
      assert s[i].name in multiset(names);
    }
  }

  /** The counts of the summary sum to the number of detections. */
  lemma {:induction false} SummaryTotal(rows: seq<Row>)
    ensures TotalCount(Summary(rows)) == |rows|
  {
    var names := Names(rows);
    EntriesTotal(Unique(names), names);
    SumOccurrencesUnique(names);
  }

  lemma {:induction false} EntriesTotal(labels: seq<string>, names: seq<string>)
    ensures TotalCount(Entries(labels, names)) == SumOccurrences(labels, names)
  {
    if labels != [] {
      var front := labels[..|labels| - 1];
      assert Entries(labels, names)[..|labels| - 1] == Entries(front, names);
      EntriesTotal(front, names);
    }
  }

  /** No detections give an empty summary, and only no detections do. */
  lemma SummaryEmpty(rows: seq<Row>)
    ensures Summary(rows) == [] <==> rows == []
  {
    if rows != [] {
      assert Names(rows)[0] == rows[0].name;
      assert rows[0].name in Names(rows);
    }
  }

  /** The count can be read back from the end of its summary line. */
  lemma SummaryLineReadBack(rows: seq<Row>, i: nat)
    requires i < |Summary(rows)|
    ensures var e := Summary(rows)[i];
      var digits := e.text[|Display(e.name)| + 2..];
      && e.text[..|Display(e.name)| + 2] == Display(e.name) + ": "
      && (forall k :: 0 <= k < |digits| ==> IsDigit(digits[k]))
      && DecimalValue(digits) == e.count
  {
    var e := Summary(rows)[i];
    assert e.text[|Display(e.name)| + 2..] == DecimalString(e.count);
  }

  lemma UniqueExample()
    ensures Unique(["Person", "Hardhat", "Person"]) == ["Person", "Hardhat"]
  {
    var one, two, three: seq<string> := ["Person"], ["Person", "Hardhat"], ["Person", "Hardhat", "Person"];
    assert one[..0] == [] && two[..1] == one && three[..2] == two;
    assert Unique(one) == one;
    assert Unique(two) == two;
  }

  lemma EntriesExample()
    ensures var s := Entries(["Person", "Hardhat"], ["Person", "Hardhat", "Person"]);
      && |s| == 2
      && s[0].name == "Person" && s[0].count == 2 && s[0].text == "👤 Worker: 2"
      && s[1].name == "Hardhat" && s[1].count == 1 && s[1].text == "✅ Compliant: 1"
  {
    var names := ["Person", "Hardhat", "Person"];
    assert multiset(names)["Person"] == 2 && multiset(names)["Hardhat"] == 1;
    assert LineText("Person", 2) == "👤 Worker: 2" by { assert DecimalString(2) == "2"; }
    assert LineText("Hardhat", 1) == "✅ Compliant: 1" by { assert DecimalString(1) == "1"; }
  }

  /** A worker seen twice around a hardhat: the worker line comes first, with count 2. */
  lemma SummaryExample()
    ensures var s := Summary([Row("Person", 0, 0, 5, 5), Row("Hardhat", 1, 1, 2, 2), Row("Person", 6, 0, 9, 5)]);
      && |s| == 2
      && s[0].name == "Person" && s[0].count == 2 && s[0].text == "👤 Worker: 2"
      && s[1].name == "Hardhat" && s[1].count == 1 && s[1].text == "✅ Compliant: 1"
  {
    var rows := [Row("Person", 0, 0, 5, 5), Row("Hardhat", 1, 1, 2, 2), Row("Person", 6, 0, 9, 5)];
    var names := Names(rows);
    assert names == ["Person", "Hardhat", "Person"];
    UniqueExample();
    EntriesExample();
  }
}
