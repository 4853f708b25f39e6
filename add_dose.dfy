/**
 * How the caffeine screen fills the add-dose dialog (from a camera scan,
 * a quick-add menu button or the custom button), the dialog's milligram
 * field filter and confirm guard, and the insert that follows.
 */
module AddDose {
  import opened Wrappers
  import opened Text
  import opened DrinkModel
  import opened DrinkDao

  /** What the dialog is opened with: `selectedName`, `selectedMg`, `selectedIconName`. */
  datatype Selection = Selection(name: string, mgText: string, iconName: string)

  // ---- Scanning: the image labeller's output is an input here.

  /** One label from the image labeller; `confidence` is the labeller's score in [0, 1]. */
  datatype Label = Label(text: string, confidence: real)

  const ScanThreshold: real := 0.7

  const EspressoScan := Selection("Espresso", "60", "Espresso")
  const CoffeeScan := Selection("Coffee", "95", "LocalCafe")
  const TeaScan := Selection("Black Tea", "45", "Tea")
  const ColaScan := Selection("Cola", "35", "Cola")
  const EnergyScan := Selection("Energy Drink", "150", "Bolt")

  const EspressoWords: seq<string> := ["espresso", "demitasse"]
  const CoffeeWords: seq<string> := ["coffee", "mug", "cup"]
  const TeaWords: seq<string> := ["tea", "teapot"]
  const ColaWords: seq<string> := ["soda", "can", "cola", "soft drink"]
  const EnergyWords: seq<string> := ["energy"]

  predicate MentionsAny(text: string, words: seq<string>) {
    exists i :: 0 <= i < |words| && Contains(text, words[i])
  }

  /**
   * The `when` on one lower-cased label: the first branch whose keywords
   * occur in the text decides, in the order espresso, coffee, tea, soda,
   * energy.
   */
  function Classify(text: string): (r: Option<Selection>)
    ensures r == Some(EspressoScan) <==> MentionsAny(text, EspressoWords)
    ensures r == Some(CoffeeScan) <==> !MentionsAny(text, EspressoWords) && MentionsAny(text, CoffeeWords)
    ensures r == Some(TeaScan) <==>
      !MentionsAny(text, EspressoWords) && !MentionsAny(text, CoffeeWords) && MentionsAny(text, TeaWords)
    ensures r == Some(ColaScan) <==>
      !MentionsAny(text, EspressoWords) && !MentionsAny(text, CoffeeWords) && !MentionsAny(text, TeaWords)
      && MentionsAny(text, ColaWords)
    ensures r == Some(EnergyScan) <==>
      !MentionsAny(text, EspressoWords) && !MentionsAny(text, CoffeeWords) && !MentionsAny(text, TeaWords)
      && !MentionsAny(text, ColaWords) && MentionsAny(text, EnergyWords)
    ensures r.None? <==>
      !MentionsAny(text, EspressoWords) && !MentionsAny(text, CoffeeWords) && !MentionsAny(text, TeaWords)
      && !MentionsAny(text, ColaWords) && !MentionsAny(text, EnergyWords)
  {
    if MentionsAny(text, EspressoWords) then Some(EspressoScan)
    else if MentionsAny(text, CoffeeWords) then Some(CoffeeScan)
    else if MentionsAny(text, TeaWords) then Some(TeaScan)
    else if MentionsAny(text, ColaWords) then Some(ColaScan)
    else if MentionsAny(text, EnergyWords) then Some(EnergyScan)
    else None
  }

  /** A label counts only above the threshold, and is matched case-insensitively. */
  function Detect(l: Label): (r: Option<Selection>)
    ensures r.Some? ==> l.confidence > ScanThreshold && r == Classify(Lowercase(l.text))
    ensures l.confidence <= ScanThreshold ==> r.None?
    ensures l.confidence > ScanThreshold && Classify(Lowercase(l.text)).Some? ==> r.Some?
  {
    if l.confidence > ScanThreshold then Classify(Lowercase(l.text)) else None
  }

  /** The drink the scan settles on: that of the first label, in the labeller's order, that matches. */
  function FirstDetection(labels: seq<Label>): (r: Option<Selection>)
    ensures r.None? <==> forall i :: 0 <= i < |labels| ==> Detect(labels[i]).None?
    ensures r.Some? ==> exists i :: 0 <= i < |labels| && Detect(labels[i]) == r &&
                          forall j :: 0 <= j < i ==> Detect(labels[j]).None?
  {
    if labels == [] then None
    else if Detect(labels[0]).Some? then Detect(labels[0])
    else
      var r := FirstDetection(labels[1..]);
      assert forall i :: 1 <= i < |labels| ==> labels[i] == labels[1..][i - 1];
      r
  }

  /**
   * The labeller's success callback: walk the labels, stop at the first
   * confident match and take its drink; with no match, the name becomes
   * "Unknown Scan" and the milligrams empty, while the icon tag keeps
   * whatever value it had before.
   */
  method AnalyzeLabels(labels: seq<Label>, prior: Selection) returns (found: bool, sel: Selection)
    ensures found <==> FirstDetection(labels).Some?
    ensures sel == if found then FirstDetection(labels).value else Selection("Unknown Scan", "", prior.iconName)
  {
    found := false;
    sel := prior;
    var i := 0;
    while i < |labels|
      invariant 0 <= i <= |labels|
      invariant !found
      invariant sel == prior
      invariant FirstDetection(labels) == FirstDetection(labels[i..])
    {
      var text := Lowercase(labels[i].text);
      if labels[i].confidence > ScanThreshold {
        if MentionsAny(text, EspressoWords) {
          sel := EspressoScan;
          found := true;
        } else if MentionsAny(text, CoffeeWords) {
          sel := CoffeeScan;
          found := true;
        } else if MentionsAny(text, TeaWords) {
          sel := TeaScan;
          found := true;
        } else if MentionsAny(text, ColaWords) {
          sel := ColaScan;
          found := true;
        } else if MentionsAny(text, EnergyWords) {
          sel := EnergyScan;
          found := true;
        }
        if found {
          assert labels[i..][0] == labels[i];
          break;
        }
      }
      assert labels[i..][1..] == labels[i + 1..];
      i := i + 1;
    }
    if !found {
      sel := Selection("Unknown Scan", "", sel.iconName);
    }
  }

  lemma ContainsWitness(s: string, p: string, i: int)
    requires OccursAt(s, p, i)
    ensures Contains(s, p)
  {
  }

  /** Both the espresso and the coffee keywords occur; the espresso branch comes first. */
  lemma EspressoCupIsEspresso()
    ensures Classify("espresso cup") == Some(EspressoScan)
  {
    ContainsWitness("espresso cup", "espresso", 0);
    assert MentionsAny("espresso cup", EspressoWords) by { assert EspressoWords[0] == "espresso"; }
  }

  /** "cup" is tested before "tea", so a teacup is read as coffee. */
  lemma TeacupIsCoffee()
    ensures Classify("teacup") == Some(CoffeeScan)
  {
    var t := "teacup";
    assert !Contains(t, "espresso") && !Contains(t, "demitasse");
    assert !MentionsAny(t, EspressoWords);
    ContainsWitness(t, "cup", 3);
    assert MentionsAny(t, CoffeeWords) by { assert CoffeeWords[2] == "cup"; }
  }

  // The next lemmas take their label as a parameter fixed by `requires`:
  // stated on the literal itself, the keyword search is unfolded
  // character by character and the proofs become far more expensive.

  lemma EnergyDrinkCanNotEspresso(e: string)
    requires e == "energy drink can"
    ensures !MentionsAny(e, EspressoWords)
  {
    MissingCharNotContained(e, "espresso", 'p');
    MissingCharNotContained(e, "demitasse", 'm');
  }

  lemma EnergyDrinkCanNotCoffee(e: string)
    requires e == "energy drink can"
    ensures !MentionsAny(e, CoffeeWords)
  {
    MissingCharNotContained(e, "coffee", 'o');
    MissingCharNotContained(e, "mug", 'm');
    MissingCharNotContained(e, "cup", 'u');
  }

  lemma EnergyDrinkCanNotTea(e: string)
    requires e == "energy drink can"
    ensures !MentionsAny(e, TeaWords)
  {
    MissingCharNotContained(e, "tea", 't');
    MissingCharNotContained(e, "teapot", 't');
  }

  /** "can" is tested before "energy", so an energy drink can is read as cola. */
  lemma EnergyDrinkCanIsCola()
    ensures Classify("energy drink can") == Some(ColaScan)
  {
    var e := "energy drink can";
    EnergyDrinkCanNotEspresso(e);
    EnergyDrinkCanNotCoffee(e);
    EnergyDrinkCanNotTea(e);
    assert e[13..16] == "can";
    ContainsWitness(e, "can", 13);
    assert MentionsAny(e, ColaWords) by { assert ColaWords[1] == "can"; }
  }

  lemma EnergyNotEarlier(g: string)
    requires g == "energy"
    ensures !MentionsAny(g, EspressoWords) && !MentionsAny(g, CoffeeWords) && !MentionsAny(g, TeaWords)
    ensures !MentionsAny(g, ColaWords)
  {
    MissingCharNotContained(g, "espresso", 's');
    MissingCharNotContained(g, "demitasse", 's');
    MissingCharNotContained(g, "coffee", 'o');
    MissingCharNotContained(g, "mug", 'm');
    MissingCharNotContained(g, "cup", 'u');
    MissingCharNotContained(g, "tea", 't');
    MissingCharNotContained(g, "teapot", 't');
    MissingCharNotContained(g, "soda", 's');
    MissingCharNotContained(g, "can", 'c');
    MissingCharNotContained(g, "cola", 'c');
    MissingCharNotContained(g, "soft drink", 's');
  }

  /** A label that only says "energy" reaches the last branch. */
  lemma EnergyIsEnergyDrink()
    ensures Classify("energy") == Some(EnergyScan)
  {
    EnergyNotEarlier("energy");
    ContainsWitness("energy", "energy", 0);
    assert MentionsAny("energy", EnergyWords) by { assert EnergyWords[0] == "energy"; }
  }

  /** Only confidence strictly above 0.7 counts, and matching ignores case. */
  lemma ScanThresholdAndCase()
    ensures Detect(Label("Espresso", 0.7)).None?
    ensures Detect(Label("ESPRESSO", 0.71)) == Some(EspressoScan)
  {
    assert Lowercase("ESPRESSO") == "espresso";
    ContainsWitness("espresso", "espresso", 0);
    assert MentionsAny("espresso", EspressoWords) by { assert EspressoWords[0] == "espresso"; }
  }

  /** The first confident match wins, even over a more confident later label. */
  lemma FirstConfidentMatchWins()
    ensures FirstDetection([Label("Espresso", 0.5), Label("Energy", 0.8), Label("Espresso", 0.99)]) == Some(EnergyScan)
  {
    var ls := [Label("Espresso", 0.5), Label("Energy", 0.8), Label("Espresso", 0.99)];
    assert Detect(ls[0]).None?;
    assert Lowercase("Energy") == "energy";
    EnergyIsEnergyDrink();
    assert Detect(ls[1]) == Some(EnergyScan);
    assert ls[1..][0] == ls[1];
  }

  // ---- Quick add from the drink menu.

  datatype MenuItem = MenuItem(name: string, caffeineMg: int, icon: Icon)

  /** The quick-add menu, in display order. */
  const Menu: seq<MenuItem> := [
    MenuItem("Espresso", 60, Coffee),
    MenuItem("Double Espresso", 120, Coffee),
    MenuItem("Cappuccino", 80, LocalCafe),
    MenuItem("Latte Macchiato", 70, LocalCafe),
    MenuItem("Energy Drink", 120, Bolt),
    MenuItem("Monster/RedBull Large", 160, Bolt),
    MenuItem("Coca-Cola", 35, LocalDrink),
    MenuItem("Black Tea", 45, EmojiFoodBeverage),
    MenuItem("Pre-Workout", 200, FitnessCenter)
  ]

  /**
   * The icon tag the quick-add button stores, as written: two branches name
   * drinks ("Monster / RedBull", "Cola / Soda") that are not on the menu.
   */
  function QuickAddTagAsWritten(name: string): (tag: string)
    ensures forall i :: 0 <= i < |Menu| && i != 5 && i != 6 && Menu[i].name == name ==> IconOf(tag) == Menu[i].icon
  {
    match name
    case "Espresso" => "Espresso"
    case "Double Espresso" => "Coffee"
    case "Energy Drink" => "Bolt"
    case "Monster / RedBull" => "Bolt"
    case "Cola / Soda" => "Cola"
    case "Black Tea" => "Tea"
    case "Pre-Workout" => "Workout"
    case _ => "LocalCafe"
  }

  /**
   * The same mapping with the two branches naming the menu's own entries:
   * every menu entry is then stored with the icon the menu shows for it.
   */
  function QuickAddTag(name: string): (tag: string)
    ensures forall i :: 0 <= i < |Menu| && Menu[i].name == name ==> IconOf(tag) == Menu[i].icon
  {
    match name
    case "Espresso" => "Espresso"
    case "Double Espresso" => "Coffee"
    case "Energy Drink" => "Bolt"
    case "Monster/RedBull Large" => "Bolt"
    case "Coca-Cola" => "Cola"
    case "Black Tea" => "Tea"
    case "Pre-Workout" => "Workout"
    case _ => "LocalCafe"
  }

  /**
   * As written, the Monster and Coca-Cola buttons store a tag that the
   * history list draws as a coffee cup, not as the menu's icon for them.
   */
  lemma QuickAddAsWrittenLosesIcons()
    ensures Menu[5].name == "Monster/RedBull Large" && Menu[5].icon == Bolt
    ensures IconOf(QuickAddTagAsWritten(Menu[5].name)) == LocalCafe
    ensures Menu[6].name == "Coca-Cola" && Menu[6].icon == LocalDrink
    ensures IconOf(QuickAddTagAsWritten(Menu[6].name)) == LocalCafe
  {
    assert QuickAddTagAsWritten("Monster/RedBull Large") == "LocalCafe";
    assert QuickAddTagAsWritten("Coca-Cola") == "LocalCafe";
  }

  /** A quick-add button opens the dialog with the entry's name, its milligrams as text and its tag. */
  function QuickAdd(item: MenuItem): (r: Selection)
    requires item.caffeineMg >= 0
    ensures r.name == item.name && AllDigits(r.mgText)
    ensures item in Menu ==> IconOf(r.iconName) == item.icon
  {
    Selection(item.name, DecimalString(item.caffeineMg), QuickAddTag(item.name))
  }

  /** The custom button opens an empty dialog with the default tag. */
  function CustomAdd(): (r: Selection)
    ensures r.name == [] && r.mgText == [] && r.iconName == "LocalCafe" && IconOf(r.iconName) == LocalCafe
    ensures DialogTitle(r.name) == "Add Dose"
  {
    Selection("", "", "LocalCafe")
  }

  // ---- The add-dose dialog.

  /** The dialog is titled "Add Dose" when opened without a name, "Edit Dose" otherwise. */
  function DialogTitle(initialName: string): (r: string)
    ensures r == "Add Dose" <==> initialName == []
  {
    if initialName == [] then "Add Dose" else "Edit Dose"
  }

  /** The milligram field's change filter: an edit is taken only if every character is a digit. */
  function EditMg(current: string, proposed: string): (r: string)
    ensures r == proposed || r == current
    ensures AllDigits(current) ==> AllDigits(r)
    ensures AllDigits(proposed) ==> r == proposed
  {
    if AllDigits(proposed) then proposed else current
  }

  /** The field after a run of edits. */
  function ApplyEdits(current: string, edits: seq<string>): string
    decreases |edits|
  {
    if edits == [] then current else ApplyEdits(EditMg(current, edits[0]), edits[1..])
  }

  /** Starting from a digit-only text, no sequence of edits makes the field hold a non-digit. */
  lemma {:induction false} EditsKeepDigits(current: string, edits: seq<string>)
    requires AllDigits(current)
    ensures AllDigits(ApplyEdits(current, edits))
    decreases |edits|
  {
    if edits != [] {
      EditsKeepDigits(EditMg(current, edits[0]), edits[1..]);
    }
  }

  /** Every scan preset has a digit-only milligram text. */
  lemma DetectedMgIsDigits(l: Label)
    ensures Detect(l).Some? ==> AllDigits(Detect(l).value.mgText)
  {
    if Detect(l).Some? {
      var v := Detect(l).value;
      assert v == EspressoScan || v == CoffeeScan || v == TeaScan || v == ColaScan || v == EnergyScan;
    }
  }

  /** Every way of opening the dialog starts the milligram field with digits only. */
  lemma OpeningsStartWithDigits(labels: seq<Label>, i: nat)
    requires i < |Menu|
    ensures AllDigits(CustomAdd().mgText)
    ensures AllDigits(QuickAdd(Menu[i]).mgText)
    ensures FirstDetection(labels).Some? ==> AllDigits(FirstDetection(labels).value.mgText)
  {
    var r := FirstDetection(labels);
    if r.Some? {
      var k :| 0 <= k < |labels| && Detect(labels[k]) == r;
      DetectedMgIsDigits(labels[k]);
    }
  }

  /**
   * The "Add" button: nothing happens unless both fields are non-empty;
   * then the milligram text is parsed as a 32-bit integer, and a text that
   * does not parse counts as 0.
   */
  function Confirm(name: string, mgText: string): (r: Option<int>)
    ensures r.Some? <==> name != [] && mgText != []
    ensures r.Some? ==> IntMin <= r.value <= IntMax
    ensures r.Some? && AllDigits(mgText) ==>
      r.value == if DigitsValue(mgText) <= IntMax then DigitsValue(mgText) else 0
  {
    if name != [] && mgText != [] then Some(ToIntOrNull(mgText).GetOr(0)) else None
  }

  /** A quick-added dose is confirmed with exactly the menu's milligrams. */
  lemma QuickAddConfirmsMenuDose(i: nat)
    requires i < |Menu|
    ensures Confirm(QuickAdd(Menu[i]).name, QuickAdd(Menu[i]).mgText) == Some(Menu[i].caffeineMg)
  {
    var item := Menu[i];
    ToIntOrNullOfDecimal(item.caffeineMg);
    assert item.name != [];
  }

  /** A number too large for 32 bits is recorded as 0 mg. */
  lemma OversizedDoseIsZero()
    ensures Confirm("Coffee", "2147483648") == Some(0)
  {
    var t := "2147483648";
    assert AllDigits(t);
    assert t[..|t| - 1] == "214748364";
    assert DigitsValue(t) == 2147483648 by {
      assert DigitsValue("214748364") == 214748364 by {
        assert "214748364"[..8] == "21474836";
        assert "21474836"[..7] == "2147483";
        assert "2147483"[..6] == "214748";
        assert "214748"[..5] == "21474";
        assert "21474"[..4] == "2147";
        assert "2147"[..3] == "214";
        assert "214"[..2] == "21";
        assert "21"[..1] == "2";
        assert "2"[..0] == "";
      }
    }
  }

  /**
   * The dialog's confirm callback: insert the drink with the entered name,
   * the parsed milligrams, the chosen time, the selection's icon tag and the
   * signed-in user. The generated key `id` is a parameter.
   */
  method ConfirmDose(table: DrinkTable, id: string, user: string, iconName: string,
                     name: string, mgText: string, timeMillis: int) returns (inserted: bool)
    requires table.Valid()
    modifies table
    ensures table.Valid()
    ensures var c := Confirm(name, mgText);
      if c.Some? && !HasId(old(table.rows), id) then
        inserted && table.rows == old(table.rows) + [Drink(id, name, c.value, timeMillis, iconName, user)]
      else
        !inserted && table.rows == old(table.rows)
  {
    var c := Confirm(name, mgText);
    inserted := false;
    if c.Some? {
      inserted := table.InsertDrink(Drink(id, name, c.value, timeMillis, iconName, user));
    }
  }
}
