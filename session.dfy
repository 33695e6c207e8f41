/**
 * The survey session kept in Streamlit's session state: the shuffled pool
 * of triplets, the cursor `current_idx` and the append-only log of
 * responses, plus the per-render assignment of the two depth maps to the
 * display slots "Option A" and "Option B".
 *
 * One call of `SurveySession.Render` is one run of the script's `main()`.
 * The random draws (the shuffle of the pool and `pos_order[0] == "A"`),
 * the text typed as rater name, the radio choice and the two buttons are
 * its inputs.
 */
module Session {
  import opened Wrappers
  import opened TrialSet
  import opened Shuffle

  const DepthProLabel: string := "DepthPro"
  const EndoDacLabel: string := "EndoDac"

  /** The two options of the radio button. */
  datatype Slot = OptionA | OptionB

  /** What one render shows on the right: a depth map and its model label per slot. */
  datatype Presentation = Presentation(pathA: Path, labelA: string, pathB: Path, labelB: string)

  /** `path` is the depth map that the model named `model` produced for `t`. */
  predicate Shows(t: Triplet, model: string, path: Path) {
    (model == DepthProLabel && path == t.dpPath) || (model == EndoDacLabel && path == t.edPath)
  }

  /**
   * The slot assignment of one render; `depthProFirst` is the random draw
   * `pos_order[0] == "A"`. Each slot's label names the model whose depth map
   * that slot displays, and the two slots carry the two models.
   */
  function Assign(t: Triplet, depthProFirst: bool): (p: Presentation)
    ensures Shows(t, p.labelA, p.pathA) && Shows(t, p.labelB, p.pathB)
    ensures p.labelA != p.labelB && {p.labelA, p.labelB} == {DepthProLabel, EndoDacLabel}
    ensures p.labelA == DepthProLabel <==> depthProFirst
  {
    if depthProFirst then Presentation(t.dpPath, DepthProLabel, t.edPath, EndoDacLabel)
    else Presentation(t.edPath, EndoDacLabel, t.dpPath, DepthProLabel)
  }

  /** The depth map displayed in slot `chosen`. */
  function Displayed(p: Presentation, chosen: Slot): Path {
    if chosen == OptionA then p.pathA else p.pathB
  }

  /** `chosen_model`: the label of the chosen slot. */
  function ChosenModel(p: Presentation, chosen: Slot): string {
    if chosen == OptionA then p.labelA else p.labelB
  }

  /**
   * Under either random assignment, the label resolved for a slot names the
   * model whose depth map that slot holds under the same assignment, that is,
   * in the run the click triggers; it is "DepthPro" exactly when the DepthPro
   * map was drawn into the chosen slot.
   */
  lemma ChosenModelIsProvenance(t: Triplet, depthProFirst: bool, chosen: Slot)
    ensures Shows(t, ChosenModel(Assign(t, depthProFirst), chosen), Displayed(Assign(t, depthProFirst), chosen))
    ensures ChosenModel(Assign(t, depthProFirst), chosen) == DepthProLabel <==> (depthProFirst <==> chosen == OptionA)
  {
  }

  /** For a collected triplet the two depth maps differ, so the label can be read off the displayed path. */
  lemma ChosenModelFromPath(cat: string, f: string, depthProFirst: bool, chosen: Slot)
    ensures var t := TripletFor(cat, f);
            ChosenModel(Assign(t, depthProFirst), chosen) == DepthProLabel <==>
            Displayed(Assign(t, depthProFirst), chosen) == t.dpPath
  {
    var t := TripletFor(cat, f);
    assert t.dpPath[1] != t.edPath[1];
  }

  /** One row of the log: `[rater_name, filename, cat, chosen_model]`. */
  datatype Row = Row(raterName: string, filename: string, category: string, chosenModel: string)

  /** The row was recorded, under a non-empty rater name, for triplet `t`. */
  predicate RecordedFor(r: Row, t: Triplet) {
    r.raterName != "" && r.filename == t.filename && r.category == t.cat &&
    (r.chosenModel == DepthProLabel || r.chosenModel == EndoDacLabel)
  }

  /** The column names of the exported sheet, in order. */
  const Columns: seq<string> := ["rater_name", "filename", "category", "chosen_model"]

  function Cells(r: Row): seq<string> {
    [r.raterName, r.filename, r.category, r.chosenModel]
  }

  function ExportBody(rows: seq<Row>): seq<seq<string>> {
    if rows == [] then [] else [Cells(rows[0])] + ExportBody(rows[1..])
  }

  /** The sheet written at the end: a header row, then one row per response, in log order. */
  function ExportTable(rows: seq<Row>): seq<seq<string>> {
    [Columns] + ExportBody(rows)
  }

  /** Reads data rows of four cells back into responses. */
  function ReadBody(table: seq<seq<string>>): Option<seq<Row>> {
    if table == [] then Some([])
    else if |table[0]| != 4 then None
    else
      match ReadBody(table[1..])
      case None => None
      case Some(rest) => Some([Row(table[0][0], table[0][1], table[0][2], table[0][3])] + rest)
  }

  /** Reads an exported sheet back: it must start with the header row. */
  function ReadTable(table: seq<seq<string>>): Option<seq<Row>> {
    if table == [] || table[0] != Columns then None else ReadBody(table[1..])
  }

  /** The exported sheet holds exactly the response log, in order. */
  lemma {:induction false} ExportRoundTrip(rows: seq<Row>)
    ensures |ExportTable(rows)| == |rows| + 1
    ensures ReadTable(ExportTable(rows)) == Some(rows)
  {
    ExportBodyRoundTrip(rows);
  }

  lemma {:induction false} ExportBodyRoundTrip(rows: seq<Row>)
    ensures |ExportBody(rows)| == |rows|
    ensures ReadBody(ExportBody(rows)) == Some(rows)
    decreases |rows|
  {
    if rows != [] {
      ExportBodyRoundTrip(rows[1..]);
      assert ExportBody(rows)[1..] == ExportBody(rows[1..]);
      assert [rows[0]] + rows[1..] == rows;
    }
  }

  /** What one run of `main()` ends with. */
  datatype Screen =
    | NameRequired                                  // no rater name: warn and stop
    | Crashed(error: FsError)                       // `os.listdir` raised while building the pool
    | Finished(sheet: Option<seq<seq<string>>>)    // all items done; the sheet when "Finalize" was pressed
    | Trial(item: Triplet, shown: Presentation)     // the current item is shown, "Next" not pressed
    | Advanced(row: Row)                            // "Next" pressed: `row` recorded

  class SurveySession {
    /** Whether `triplets_list` is in the session state yet. */
    var initialized: bool
    var tripletsList: seq<Triplet>
    var currentIdx: nat
    var responses: seq<Row>
    /** The draw pinned for the current item by `RenderPinned`, until the item is recorded. */
    var pinned: Option<bool>

    /** Log length equals the cursor, the cursor is within the pool, and row `i` was recorded for item `i`. */
    ghost predicate Valid()
      reads this
    {
      (!initialized ==> tripletsList == [] && currentIdx == 0 && responses == []) &&
      |responses| == currentIdx <= |tripletsList| &&
      forall i :: 0 <= i < |responses| ==> RecordedFor(responses[i], tripletsList[i])
    }

    /** A fresh browser session: nothing stored yet. */
    constructor ()
      ensures Valid() && !initialized && pinned == None
    {
      initialized := false;
      tripletsList := [];
      currentIdx := 0;
      responses := [];
      pinned := None;
    }

    /** The completion test `current_idx >= len(triplets_list)`: every item has its row. */
    function IsComplete(): (done: bool)
      reads this
      requires Valid()
      ensures done <==> |responses| == |tripletsList|
    {
      currentIdx >= |tripletsList|
    }

    /** Session initialisation: the pool is the collected triplets shuffled by `perm`, the cursor 0, the log empty. */
    method Start(all: seq<Triplet>, perm: seq<nat>)
      requires Valid() && !initialized
      requires IsIndexPermutation(perm, |all|)
      modifies this
      ensures Valid() && initialized
      ensures tripletsList == Permute(all, perm) && multiset(tripletsList) == multiset(all)
      ensures currentIdx == 0 && responses == []
      ensures pinned == old(pinned)
    {
      PermutePreservesMultiset(all, perm);
      tripletsList := Permute(all, perm);
      currentIdx := 0;
      responses := [];
      initialized := true;
    }

    /**
     * The "Next Image" action: resolve the chosen slot through the render's
     * assignment, append one row for the current item and move the cursor
     * on by one; the pool and the earlier rows stay as they were.
     */
    method RecordAndAdvance(raterName: string, depthProFirst: bool, chosen: Slot) returns (row: Row)
      requires Valid() && initialized && currentIdx < |tripletsList|
      requires raterName != ""
      modifies this
      ensures Valid() && initialized
      ensures var t := old(tripletsList[currentIdx]);
              row == Row(raterName, t.filename, t.cat, ChosenModel(Assign(t, depthProFirst), chosen)) &&
              Shows(t, row.chosenModel, Displayed(Assign(t, depthProFirst), chosen))
      ensures responses == old(responses) + [row]
      ensures currentIdx == old(currentIdx) + 1
      ensures tripletsList == old(tripletsList)
      ensures pinned == old(pinned)
    {
      var t := tripletsList[currentIdx];
      var shown := Assign(t, depthProFirst);
      var chosenModel := ChosenModel(shown, chosen);
      row := Row(raterName, t.filename, t.cat, chosenModel);
      responses := responses + [row];
      currentIdx := currentIdx + 1;
    }

    /**
     * One run of `main()`. Without a rater name nothing happens. The first
     * run with a name builds and shuffles the pool. A complete session only
     * shows the completion screen (and the sheet when "Finalize" is pressed);
     * otherwise the current item is shown under the drawn assignment and,
     * when "Next" is pressed, recorded.
     */
    method Render(fs: FileSystem, raterName: string, perm: seq<nat>, depthProFirst: bool, chosen: Slot,
                  nextPressed: bool, finalizePressed: bool) returns (screen: Screen)
      requires Valid()
      requires !initialized && Collected(fs).Success? ==> IsIndexPermutation(perm, |Collected(fs).value|)
      modifies this
      ensures Valid()
      ensures raterName == "" ==> screen == NameRequired
      ensures raterName != "" ==> !screen.NameRequired?
      ensures raterName != "" && initialized && old(currentIdx) >= |tripletsList| ==> screen.Finished?
      ensures raterName != "" && initialized && old(currentIdx) < |tripletsList| ==>
                if nextPressed then screen.Advanced? else screen.Trial?
      ensures pinned == old(pinned)
      ensures screen.NameRequired? || screen.Crashed? ==> unchanged(this)
      ensures screen.Crashed? <==> raterName != "" && !old(initialized) && Collected(fs).Failure?
      ensures screen.Crashed? ==> Collected(fs) == Failure(screen.error)
      ensures raterName != "" && !screen.Crashed? ==> initialized
      ensures old(initialized) ==> initialized && tripletsList == old(tripletsList)
      ensures !old(initialized) && initialized ==>
                Collected(fs).Success? && tripletsList == Permute(Collected(fs).value, perm) &&
                multiset(tripletsList) == multiset(Collected(fs).value)
      ensures old(initialized) && old(currentIdx) >= old(|tripletsList|) && raterName != "" ==> screen.Finished?
      ensures screen.Finished? ==>
                initialized && |responses| == |tripletsList| && responses == old(responses) && currentIdx == old(currentIdx) &&
                screen.sheet == (if finalizePressed then Some(ExportTable(responses)) else None)
      ensures screen.Trial? ==>
                !nextPressed && currentIdx < |tripletsList| && screen.item == tripletsList[currentIdx] &&
                screen.shown == Assign(screen.item, depthProFirst) &&
                responses == old(responses) && currentIdx == old(currentIdx)
      ensures screen.Advanced? ==>
                nextPressed && currentIdx == old(currentIdx) + 1 && responses == old(responses) + [screen.row] &&
                var t := tripletsList[old(currentIdx)];
                screen.row == Row(raterName, t.filename, t.cat, ChosenModel(Assign(t, depthProFirst), chosen))
    {
      if raterName == "" {
        return NameRequired;
      }
      if !initialized {
        var all := CollectImageTriplets(fs);
        if all.Failure? {
          return Crashed(all.error);
        }
        Start(all.value, perm);
      }
      if IsComplete() {
        var sheet := if finalizePressed then Some(ExportTable(responses)) else None;
        return Finished(sheet);
      }
      var t := tripletsList[currentIdx];
      var shown := Assign(t, depthProFirst);
      if nextPressed {
        var row := RecordAndAdvance(raterName, depthProFirst, chosen);
        return Advanced(row);
      }
      return Trial(t, shown);
    }

    /**
     * The run of `main()` with the slot assignment drawn once per item: the
     * first display of an item pins its draw, later runs for the same item
     * show and resolve with that draw, and recording the item releases it.
     */
    method RenderPinned(fs: FileSystem, raterName: string, perm: seq<nat>, depthProFirst: bool, chosen: Slot,
                        nextPressed: bool, finalizePressed: bool) returns (screen: Screen)
      requires Valid()
      requires !initialized && Collected(fs).Success? ==> IsIndexPermutation(perm, |Collected(fs).value|)
      modifies this
      ensures Valid()
      ensures raterName == "" ==> screen == NameRequired
      ensures raterName != "" ==> !screen.NameRequired?
      ensures screen.NameRequired? || screen.Crashed? ==> unchanged(this)
      ensures screen.Crashed? <==> raterName != "" && !old(initialized) && Collected(fs).Failure?
      ensures raterName != "" && !screen.Crashed? ==> initialized
      ensures raterName != "" && initialized && old(currentIdx) < |tripletsList| ==>
                if nextPressed then screen.Advanced? else screen.Trial?
      ensures old(initialized) ==> initialized && tripletsList == old(tripletsList)
      ensures screen.Crashed? ==> Collected(fs) == Failure(screen.error)
      ensures raterName != "" && initialized && old(currentIdx) >= |tripletsList| ==> screen.Finished?
      ensures !old(initialized) && initialized ==>
                Collected(fs).Success? && tripletsList == Permute(Collected(fs).value, perm) &&
                multiset(tripletsList) == multiset(Collected(fs).value)
      ensures screen.Finished? ==>
                initialized && pinned == old(pinned) && responses == old(responses) && currentIdx == old(currentIdx) &&
                |responses| == |tripletsList| &&
                screen.sheet == (if finalizePressed then Some(ExportTable(responses)) else None)
      ensures screen.Trial? ==>
                pinned == Some(if old(pinned).Some? then old(pinned).value else depthProFirst) &&
                currentIdx < |tripletsList| && screen.item == tripletsList[currentIdx] &&
                screen.shown == Assign(screen.item, pinned.value) &&
                responses == old(responses) && currentIdx == old(currentIdx)
      ensures screen.Advanced? ==>
                pinned.None? && currentIdx == old(currentIdx) + 1 && responses == old(responses) + [screen.row] &&
                var t := tripletsList[old(currentIdx)];
                var d := if old(pinned).Some? then old(pinned).value else depthProFirst;
                screen.row == Row(raterName, t.filename, t.cat, ChosenModel(Assign(t, d), chosen))
    {
      var d := if pinned.Some? then pinned.value else depthProFirst;
      screen := Render(fs, raterName, perm, d, chosen, nextPressed, finalizePressed);
      if screen.Trial? {
        pinned := Some(d);
      } else if screen.Advanced? {
        pinned := None;
      }
    }
  }

  /**
   * Showing an item and then pressing "Next" on it with the draw pinned: the
   * recorded label is the label of the chosen slot as the rater saw it, and
   * names the model whose depth map that slot displayed.
   */
  method ShowThenRecordPinned(s: SurveySession, fs: FileSystem, raterName: string, perm: seq<nat>,
                              firstDraw: bool, secondDraw: bool, chosen: Slot) returns (first: Screen, second: Screen)
    requires s.Valid()
    requires !s.initialized && Collected(fs).Success? ==> IsIndexPermutation(perm, |Collected(fs).value|)
    modifies s
    ensures s.Valid()
    ensures first.Trial? ==> second.Advanced?
    ensures first.Trial? && second.Advanced? ==>
              second.row.raterName == raterName &&
              second.row.filename == first.item.filename && second.row.category == first.item.cat &&
              second.row.chosenModel == ChosenModel(first.shown, chosen) &&
              Shows(first.item, second.row.chosenModel, Displayed(first.shown, chosen))
  {
    first := s.RenderPinned(fs, raterName, perm, firstDraw, chosen, false, false);
    ghost var draw := s.pinned;
    second := s.RenderPinned(fs, raterName, perm, secondDraw, chosen, true, false);
    if first.Trial? && second.Advanced? {
      ChosenModelIsProvenance(first.item, draw.value, chosen);
    }
  }

  /** A disk with `images/high/a.png` in all three trees and `b.png` missing from the EndoDac tree. */
  const Demo: FileSystem :=
    FileSystem(map[Join(ImageDir, "high") := ["a.png", "b.png"], Join(ImageDir, "mid") := [], Join(ImageDir, "low") := []],
               {TripletFor("high", "a.png").imgPath, TripletFor("high", "a.png").dpPath, TripletFor("high", "a.png").edPath,
                TripletFor("high", "b.png").imgPath, TripletFor("high", "b.png").dpPath})

  /** On `Demo` the pool is the single item `high/a.png`; `b.png` is dropped without an error. */
  lemma DemoCollected()
    ensures Collected(Demo) == Success([TripletFor("high", "a.png")])
  {
    var a, b := TripletFor("high", "a.png"), TripletFor("high", "b.png");
    assert b.edPath !in Demo.files by {
      assert b.edPath[1] != a.imgPath[1] && b.edPath[1] != a.dpPath[1] && b.edPath[3] != a.edPath[3];
      assert b.edPath[1] != b.imgPath[1] && b.edPath[1] != b.dpPath[1];
    }
    assert !InAllTrees(Demo, "high", "b.png");
    assert KeptIn(Demo, "high", ["a.png", "b.png"]) == [a] by {
      assert ["a.png", "b.png"][..1] == ["a.png"];
      assert ["a.png"][..0] == [];
      assert InAllTrees(Demo, "high", "a.png");
    }
    var cats := DepthCategories;
    assert forall k :: 0 <= k < |cats| ==> Listable(Demo, cats[k]);
    CollectFromOutcome(Demo, cats, []);
    assert ListingOf(Demo, "mid") == [] && ListingOf(Demo, "low") == [];
    assert Matched(Demo, cats[2..]) == [];
    assert Matched(Demo, cats[1..]) == [];
    assert Join(ImageDir, "high")[2] != Join(ImageDir, "mid")[2] && Join(ImageDir, "high")[2] != Join(ImageDir, "low")[2];
    assert ListingOf(Demo, cats[0]) == ["a.png", "b.png"];
    assert Matched(Demo, cats) == [a];
  }

  /**
   * The script as written: a rater sees DepthPro in "Option A" and picks it,
   * but the click reruns `main()`, which draws the assignment again before
   * resolving the choice, and the row records EndoDac.
   */
  method StaleDrawAsWritten() returns (shown: Presentation, recorded: Row)
    ensures shown.labelA == DepthProLabel && shown.pathA == TripletFor("high", "a.png").dpPath
    ensures recorded.filename == "a.png" && recorded.chosenModel == EndoDacLabel
  {
    DemoCollected();
    assert IsIndexPermutation([0], 1);
    var s := new SurveySession();
    var first := s.Render(Demo, "alice", [0], true, OptionA, false, false);
    assert s.initialized && s.tripletsList == Permute([TripletFor("high", "a.png")], [0]);
    assert |s.tripletsList| == 1 && s.tripletsList[0] == TripletFor("high", "a.png");
    assert first.Trial?;
    shown := first.shown;
    var second := s.Render(Demo, "alice", [0], false, OptionA, true, false);
    assert second.Advanced?;
    recorded := second.row;
  }

  /** The same two runs with the draw pinned per item: the row records DepthPro, the model the rater picked. */
  method PinnedDrawCorrected() returns (shown: Presentation, recorded: Row)
    ensures shown.labelA == DepthProLabel && shown.pathA == TripletFor("high", "a.png").dpPath
    ensures recorded.filename == "a.png" && recorded.chosenModel == DepthProLabel
  {
    DemoCollected();
    assert IsIndexPermutation([0], 1);
    var s := new SurveySession();
    var first := s.RenderPinned(Demo, "alice", [0], true, OptionA, false, false);
    assert s.initialized && s.tripletsList == Permute([TripletFor("high", "a.png")], [0]);
    assert |s.tripletsList| == 1 && s.tripletsList[0] == TripletFor("high", "a.png");
    assert first.Trial?;
    shown := first.shown;
    var second := s.RenderPinned(Demo, "alice", [0], false, OptionA, true, false);
    assert second.Advanced?;
    recorded := second.row;
  }
}
