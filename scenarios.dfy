/** Concrete sessions worked through end to end: what the tool shows after a
    short series of clicks, and what one save writes for it. */
module Scenarios {
  import opened Session
  import opened Export
  import opened Text

  /** Upload two images, click (10, 10) and (50, 60) on the first, go to the
      second, click (5, 5), and save with timestamps "t0" and "t1": the sheet
      receives these five rows. */
  lemma SaveScenario()
    ensures var s := AddMark(Next(AddMark(AddMark(Upload(Initial, ["A.png", "B.png"]), 10, 10), 50, 60)), 5, 5);
            ExportRows(s, ["t0", "t1"])
            == ["Image 0 (t0):", "Mark 1: (10, 10)", "Mark 2: (50, 60)", "Image 1 (t1):", "Mark 1: (5, 5)"]
  {
    var s := AddMark(Next(AddMark(AddMark(Upload(Initial, ["A.png", "B.png"]), 10, 10), 50, 60)), 5, 5);
    ScenarioState();
    ScenarioRows(s.marks);
    ScenarioTexts();
  }

  lemma ScenarioState()
    ensures var s := AddMark(Next(AddMark(AddMark(Upload(Initial, ["A.png", "B.png"]), 10, 10), 50, 60)), 5, 5);
            s.images == ["A.png", "B.png"] && s.cursor == 1
            && s.marks == map[0 := [(10, 10), (50, 60)], 1 := [(5, 5)]]
  {
    var s0 := Upload(Initial, ["A.png", "B.png"]);
    assert s0.images == ["A.png", "B.png"] && s0.cursor == 0 && s0.marks == map[0 := []];
    var s1 := AddMark(s0, 10, 10);
    assert [] + [(10, 10)] == [(10, 10)];
    assert s1.marks == map[0 := [(10, 10)]];
    var s2 := AddMark(s1, 50, 60);
    assert [(10, 10)] + [(50, 60)] == [(10, 10), (50, 60)];
    assert s2.marks == map[0 := [(10, 10), (50, 60)]];
    var s3 := Next(s2);
    assert s3.cursor == 1 && s3.marks == map[0 := [(10, 10), (50, 60)], 1 := []];
    assert [] + [(5, 5)] == [(5, 5)];
  }

  lemma ScenarioRows(marks: map<nat, seq<Mark>>)
    requires marks == map[0 := [(10, 10), (50, 60)], 1 := [(5, 5)]]
    ensures ExportRange(marks, ["t0", "t1"], 0, 2)
         == [Header(0, "t0"), MarkLine(1, (10, 10)), MarkLine(2, (50, 60)), Header(1, "t1"), MarkLine(1, (5, 5))]
  {
  }

  lemma ScenarioTexts()
    ensures RenderAll([Header(0, "t0"), MarkLine(1, (10, 10)), MarkLine(2, (50, 60)), Header(1, "t1"), MarkLine(1, (5, 5))])
         == ["Image 0 (t0):", "Mark 1: (10, 10)", "Mark 2: (50, 60)", "Image 1 (t1):", "Mark 1: (5, 5)"]
  {
    HeaderScenario();
    MarkLineScenario();
  }

  lemma HeaderScenario()
    ensures HeaderText(0, "t0") == "Image 0 (t0):"
    ensures HeaderText(1, "t1") == "Image 1 (t1):"
  {
  }

  lemma MarkLineScenario()
    ensures MarkLineText(1, (10, 10)) == "Mark 1: (10, 10)"
    ensures MarkLineText(2, (50, 60)) == "Mark 2: (50, 60)"
    ensures MarkLineText(1, (5, 5)) == "Mark 1: (5, 5)"
  {
    FirstMarkText();
    SecondMarkText();
  }

  lemma FirstMarkText()
    ensures MarkText((10, 10)) == "(10, 10)"
  {
    assert NatToString(10) == "10";
  }

  lemma SecondMarkText()
    ensures MarkText((50, 60)) == "(50, 60)"
  {
    assert NatToString(50) == "50";
    assert NatToString(60) == "60";
  }

  /** With F1 and F3 loaded, the cursor on F1 and F1's list holding one mark,
      uploading F2 puts it between them; the mark list keyed 1, which was
      absent, stays absent, so F3 (now at 2) has no marks and F2 none either. */
  lemma UploadScenario()
    ensures var s := Upload(State(["F1", "F3"], 0, map[0 := [(1, 2)]]), ["F2"]);
            s.images == ["F1", "F2", "F3"] && s.cursor == 0 && s.marks == map[0 := [(1, 2)]]
  {
    var s := Upload(State(["F1", "F3"], 0, map[0 := [(1, 2)]]), ["F2"]);
    assert s.images == ["F1"] + ["F2"] + ["F3"];
  }
}
