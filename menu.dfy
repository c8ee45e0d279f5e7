/**
 * The pocket pet's menu logic: the bottom bar of seven buttons, the list of
 * the sub-menu opened from it, what a selection in that list does, and the
 * pet's statistics the menu shows and accepts. Drawing is not modelled: a
 * sub-menu's list is known here only by its number of children.
 */
module Menu {
  import opened Common
  import opened Keys

  /** Buttons on the bottom bar. */
  const ButtonCount := 7
  /** Largest value of health, hunger, cleanliness and happiness. */
  const MaxStat := 100
  /** Largest age, in days, that an update accepts. */
  const MaxAge := 999

  datatype MenuKind = MainMenu | InfoMenu | FoodMenu | BathMenu | HealthMenu | SleepMenu | ScanMenu

  /** The events a selection reports to the pet (the application's callback). */
  datatype PetEvent =
    | FeedHamburger | DrinkWater | FeedPizza | FeedApple | FeedFish | FeedCarrot | FeedIceCream | FeedCookie
    | GoToilet | TakeBath | SeeDoctor | GoToSleep | WakeUp | ScanWifi | ScanI2c | StatRandomize

  /** What a selection puts on screen, besides reporting an event. */
  datatype Screen =
    | Unchanged
    | PetNameKeyboard
    | Toast(text: string, ms: nat)
    | WifiScanView
    | I2cScanView
    | DinoGame
    | SnakeGame
    | LevelIndicator

  /** The effect of one selection: the event reported, the screen shown, whether the menu closes. */
  datatype Reaction = Reaction(event: Option<PetEvent>, screen: Screen, toMain: bool)

  const Nothing := Reaction(None, Unchanged, false)

  /** The pet's statistics, without the weight. */
  datatype Stats = Stats(health: byte, hungry: byte, clean: byte, happy: byte, age: uint16, name: string)

  predicate Bounded(s: Stats)
  {
    s.health <= MaxStat && s.hungry <= MaxStat && s.clean <= MaxStat && s.happy <= MaxStat
  }

  /** The statistics a new pet starts with. */
  const DefaultStats := Stats(85, 60, 70, 90, 15, "Ducky")

  /** Moving along the bottom bar: up and left go back one button, down and right forward one. */
  function MainNav(sel: byte, key: uint32): (r: byte)
    ensures sel < ButtonCount ==> r < ButtonCount
    ensures r < sel <==> (KeyOf(key) == Up || KeyOf(key) == Left) && sel > 0
    ensures r > sel <==> (KeyOf(key) == Down || KeyOf(key) == Right) && sel < ButtonCount - 1
    ensures r == sel || r == sel + 1 || r + 1 == sel
  {
    match KeyOf(key)
    case Up | Left => if sel > 0 then sel - 1 else sel
    case Down | Right => if sel < ButtonCount - 1 then sel + 1 else sel
    case _ => sel
  }

  /** Forward then back along the bar returns to the same button, and so does back then forward. */
  lemma MainNavUndo(sel: byte)
    requires sel < ButtonCount
    ensures sel < ButtonCount - 1 ==> MainNav(MainNav(sel, 18), 17) == sel
    ensures sel > 0 ==> MainNav(MainNav(sel, 20), 19) == sel
  {
    if sel < ButtonCount - 1 {
      var next := MainNav(sel, 18);
      assert next == sel + 1;
    }
    if sel > 0 {
      var prev := MainNav(sel, 20);
      assert prev == sel - 1;
    }
  }

  /**
   * Moving in a sub-menu's list of `childCount` entries. Only the raw codes
   * 17 and 18 move; the selection is a byte, so a step down from 255 wraps
   * to 0.
   */
  function SubNav(sel: byte, childCount: uint32, key: uint32): (r: byte)
    ensures childCount == 0 || (key != 17 && key != 18) ==> r == sel
    ensures sel < childCount ==> r < childCount
    ensures 0 < childCount && key == 17 ==> r == if sel > 0 then sel - 1 else sel
    ensures 0 < childCount && key == 18 && sel < 255 ==> r == if sel < childCount - 1 then sel + 1 else sel
  {
    if childCount == 0 then sel
    else if key == 17 then (if sel > 0 then sel - 1 else sel)
    else if key == 18 then (if sel < childCount - 1 then Trunc8(sel + 1) else sel)
    else sel
  }

  /** In a list of more than 256 entries, a step down from entry 255 goes back to the top. */
  lemma SubNavWraps()
    ensures SubNav(255, 300, 18) == 0
  {
    assert Trunc8(256) == 0;
  }

  /** The event reported for a selection, which is only delivered when a callback is registered. */
  function Fire(e: PetEvent, hasCallback: bool): (r: Option<PetEvent>)
    ensures r.Some? <==> hasCallback
    ensures r.Some? ==> r.value == e
  {
    if hasCallback then Some(e) else None
  }

  /** The food list's events in list order. */
  function FoodEvent(i: nat): (e: PetEvent)
    requires i < 8
    ensures i <= 1 <==> e in {FeedHamburger, DrinkWater}
  {
    [FeedHamburger, DrinkWater, FeedPizza, FeedApple, FeedFish, FeedCarrot, FeedIceCream, FeedCookie][i]
  }

  /**
   * A selection in the information page. Its actions start at `start`, the
   * entry after the "Actions:" label (0 when there is none); the offset is
   * computed in 32-bit unsigned arithmetic, so an entry above the actions
   * lands far beyond them unless `start` is itself near 2^32.
   */
  function InfoAction(sel: byte, start: uint32, hasCallback: bool): (r: Reaction)
    ensures start < 0xFFFF_FF00 ==> (r.toMain <==> start <= sel && sel == start + 3)
    ensures sel < start < 0xFFFF_FF00 ==> r == Nothing
    ensures start < 0xFFFF_FF00 && start <= sel ==>
      && (sel == start ==> r == Reaction(None, PetNameKeyboard, false))
      && (sel == start + 1 ==> r == Reaction(None, Toast("Not supported yet", 500), false))
      && (sel == start + 2 ==> r == Reaction(None, Toast("WIFI SETUP: Not supported yet", 1500), false))
      && (sel == start + 3 ==> r == Reaction(Fire(StatRandomize, hasCallback), Unchanged, true))
      && (sel > start + 3 ==> r == Nothing)
  {
    var idx := Trunc32(sel - start);
    if idx == 0 then Reaction(None, PetNameKeyboard, false)
    else if idx == 1 then Reaction(None, Toast("Not supported yet", 500), false)
    else if idx == 2 then Reaction(None, Toast("WIFI SETUP: Not supported yet", 1500), false)
    else if idx == 3 then Reaction(Fire(StatRandomize, hasCallback), Unchanged, true)
    else Nothing
  }

  /** What selecting entry `sel` of the open sub-menu does. */
  function SubSelection(menu: MenuKind, sel: byte, start: uint32, hasCallback: bool): (r: Reaction)
    ensures r.event.Some? ==> hasCallback
    ensures start < 0xFFFF_FF00 ==> (r.toMain <==>
      || (menu == InfoMenu && start <= sel && sel == start + 3)
      || (menu in {FoodMenu, BathMenu, SleepMenu} && sel <= 1)
      || (menu == HealthMenu && sel == 0))
    ensures r.toMain && hasCallback ==> r.event.Some?
    ensures menu == FoodMenu && sel < 8 ==> r.event == Fire(FoodEvent(sel), hasCallback)
    ensures menu == FoodMenu && 2 <= sel < 8 ==> r.screen == Toast("Need higher level", 1500)
    ensures menu == ScanMenu ==> r.event == None && !r.toMain
    ensures menu == MainMenu ==> r == Nothing
  {
    match menu
    case MainMenu => Nothing
    case InfoMenu => InfoAction(sel, start, hasCallback)
    case FoodMenu =>
      if sel <= 1 then Reaction(Fire(FoodEvent(sel), hasCallback), Unchanged, true)
      else if sel < 8 then Reaction(Fire(FoodEvent(sel), hasCallback), Toast("Need higher level", 1500), false)
      else Nothing
    case BathMenu =>
      if sel == 0 then Reaction(Fire(GoToilet, hasCallback), Unchanged, true)
      else if sel == 1 then Reaction(Fire(TakeBath, hasCallback), Unchanged, true)
      else Nothing
    case HealthMenu =>
      if sel == 0 then Reaction(Fire(SeeDoctor, hasCallback), Unchanged, true) else Nothing
    case SleepMenu =>
      if sel == 0 then Reaction(Fire(GoToSleep, hasCallback), Unchanged, true)
      else if sel == 1 then Reaction(Fire(WakeUp, hasCallback), Unchanged, true)
      else Nothing
    case ScanMenu =>
      if sel == 0 then Reaction(None, WifiScanView, false)
      else if sel == 1 then Reaction(None, I2cScanView, false)
      else if sel == 2 then Reaction(None, DinoGame, false)
      else if sel == 3 then Reaction(None, SnakeGame, false)
      else if sel == 4 then Reaction(None, LevelIndicator, false)
      else Nothing
  }

  /** An entry above the information page's actions (a statistic, the name) does nothing. */
  lemma InfoAboveActionsInert(sel: byte, start: uint32, hasCallback: bool)
    requires sel < start < 0xFFFF_FF00
    ensures SubSelection(InfoMenu, sel, start, hasCallback) == Nothing
  {
  }

  /** The sub-menu each bottom-bar button opens; the video button opens none. */
  function MenuOfButton(b: byte): (m: Option<MenuKind>)
    ensures m.Some? <==> b < ButtonCount && b != 5
    ensures m.Some? ==> m.value != MainMenu
  {
    if b == 0 then Some(InfoMenu)
    else if b == 1 then Some(FoodMenu)
    else if b == 2 then Some(BathMenu)
    else if b == 3 then Some(HealthMenu)
    else if b == 4 then Some(SleepMenu)
    else if b == 6 then Some(ScanMenu)
    else None
  }

  /**
   * Accepting statistics from the application: each of health, hunger,
   * cleanliness and happiness is taken only when at most 100, the age only
   * when at most 999, and the name never.
   */
  function Merge(cur: Stats, inc: Stats): (r: Stats)
    ensures Bounded(cur) ==> Bounded(r)
    ensures Bounded(inc) && inc.age <= MaxAge ==> r == inc.(name := cur.name)
    ensures r.name == cur.name
    ensures r.health == if inc.health <= MaxStat then inc.health else cur.health
    ensures r.hungry == if inc.hungry <= MaxStat then inc.hungry else cur.hungry
    ensures r.clean == if inc.clean <= MaxStat then inc.clean else cur.clean
    ensures r.happy == if inc.happy <= MaxStat then inc.happy else cur.happy
    ensures r.age == if inc.age <= MaxAge then inc.age else cur.age
  {
    Stats(
      if inc.health <= MaxStat then inc.health else cur.health,
      if inc.hungry <= MaxStat then inc.hungry else cur.hungry,
      if inc.clean <= MaxStat then inc.clean else cur.clean,
      if inc.happy <= MaxStat then inc.happy else cur.happy,
      if inc.age <= MaxAge then inc.age else cur.age,
      cur.name)
  }

  /** Accepting the same statistics twice changes nothing the second time. */
  lemma MergeIdempotent(cur: Stats, inc: Stats)
    ensures Merge(Merge(cur, inc), inc) == Merge(cur, inc)
  {
    var once := Merge(cur, inc);
    assert once.health == (if inc.health <= MaxStat then inc.health else cur.health);
    assert once.age == (if inc.age <= MaxAge then inc.age else cur.age);
  }

  /**
   * The demonstration step: health, hunger and happiness advance by 5, 10
   * and 3 modulo 101, cleanliness stays, and the 16-bit age goes up by one.
   */
  function TestStep(s: Stats): (r: Stats)
    ensures Bounded(r) || s.clean > MaxStat
    ensures r.clean == s.clean && r.name == s.name
    ensures r.age == (s.age + 1) % 0x1_0000
    ensures s.health <= 95 ==> r.health == s.health + 5
    ensures s.hungry <= 90 ==> r.hungry == s.hungry + 10
    ensures s.happy <= 97 ==> r.happy == s.happy + 3
  {
    s.(health := (s.health + 5) % (MaxStat + 1),
       hungry := (s.hungry + 10) % (MaxStat + 1),
       happy := (s.happy + 3) % (MaxStat + 1),
       age := Trunc16(s.age + 1))
  }

  /**
   * A statistic shown as a bar of five stars: (v + 9) / 20 in C's
   * truncating division, held between 0 and 5.
   */
  function Stars(v: int): (r: int)
    ensures 0 <= r <= 5
    ensures 0 <= v ==> (r == 5 <==> v >= 91)
    ensures 0 <= v && r < 5 ==> 20 * r - 9 <= v <= 20 * r + 10
    ensures v <= 10 ==> r == 0
  {
    var q := if v + 9 >= 0 then (v + 9) / 20 else -((-(v + 9)) / 20);
    if q > 5 then 5 else if q < 0 then 0 else q
  }

  /** More of a statistic never shows fewer stars. */
  lemma StarsMonotone(a: int, b: int)
    requires a <= b
    ensures Stars(a) <= Stars(b)
  {
    if 0 <= a {
      assert (a + 9) / 20 <= (b + 9) / 20 by {
        DivMonotone(a + 9, b + 9);
      }
    }
  }

  lemma {:induction false} DivMonotone(x: nat, y: nat)
    requires x <= y
    ensures x / 20 <= y / 20
  {
    if y >= 20 && x >= 20 {
      DivMonotone(x - 20, y - 20);
      assert x / 20 == (x - 20) / 20 + 1;
      assert y / 20 == (y - 20) / 20 + 1;
    } else if x >= 20 {
      assert false;
    } else {
      assert x / 20 == 0;
    }
  }

  /**
   * The information page's four bars as the page draws them: the bar
   * labelled "Clean" is drawn from the happiness value.
   */
  function InfoBarsAsDrawn(s: Stats): (r: seq<int>)
    ensures |r| == 4 && r[2] == r[3]
    ensures r[2] == 5 <==> s.happy >= 91
  {
    [Stars(s.health), Stars(s.hungry), Stars(s.happy), Stars(s.happy)]
  }

  /** A pet that is not clean at all can show a full "Clean" bar. */
  lemma CleanBarShowsHappiness()
    ensures InfoBarsAsDrawn(Stats(85, 60, 0, 100, 15, "Ducky"))[2] == 5
    ensures Stars(0) == 0
  {
  }

  /** The information page's four bars, each drawn from its own statistic. */
  function InfoBars(s: Stats): (r: seq<int>)
    ensures |r| == 4
    ensures r[0] == 5 <==> s.health >= 91
    ensures r[1] == 5 <==> s.hungry >= 91
    ensures r[2] == 5 <==> s.clean >= 91
    ensures r[3] == 5 <==> s.happy >= 91
    ensures s.clean <= 10 ==> r[2] == 0
  {
    [Stars(s.health), Stars(s.hungry), Stars(s.clean), Stars(s.happy)]
  }

  /** The menu's state: the bottom bar, the open sub-menu and its selection, the pet's statistics. */
  class MenuSystem {
    var selectedButton: byte
    var subSelection: byte
    var current: MenuKind
    var stats: Stats
    var hasCallback: bool

    ghost predicate Valid()
      reads this
    {
      selectedButton < ButtonCount && Bounded(stats)
    }

    /** The zero-initialised state, then the initial bar selection. */
    constructor ()
      ensures Valid()
      ensures selectedButton == 0 && subSelection == 0 && current == MainMenu && !hasCallback
      ensures stats == Stats(0, 0, 0, 0, 0, "")
    {
      selectedButton, subSelection, current := 0, 0, MainMenu;
      stats := Stats(0, 0, 0, 0, 0, "");
      hasCallback := false;
    }

    method RegisterCallback(present: bool)
      modifies this`hasCallback
      ensures hasCallback == present
    {
      hasCallback := present;
    }

    /** `menu_system_handle_main_navigation`. */
    method MainNavigation(key: uint32)
      requires Valid()
      modifies this`selectedButton
      ensures Valid()
      ensures selectedButton == MainNav(old(selectedButton), key)
    {
      var next := MainNav(selectedButton, key);
      if next != selectedButton {
        selectedButton := next;
      }
    }

    /** `menu_system_handle_sub_navigation`, with the list's number of children as a parameter. */
    method SubNavigation(key: uint32, childCount: uint32)
      modifies this`subSelection
      ensures subSelection == SubNav(old(subSelection), childCount, key)
      ensures old(subSelection) < childCount ==> subSelection < childCount
    {
      if childCount == 0 {
        return;
      }
      var next := subSelection;
      if key == 17 {
        if subSelection > 0 {
          next := subSelection - 1;
        }
      } else if key == 18 {
        if subSelection < childCount - 1 {
          next := Trunc8(subSelection + 1);
        }
      }
      if next != subSelection {
        subSelection := next;
      }
    }

    /**
     * `menu_system_handle_main_selection`: the button's sub-menu opens with
     * its first entry selected; the video button only shows a notice. The
     * information page's star bars are returned as the page draws them.
     */
    method MainSelection() returns (shown: Screen, bars: seq<int>)
      requires Valid()
      modifies this`current, this`subSelection
      ensures Valid()
      ensures MenuOfButton(selectedButton).Some? ==>
        current == MenuOfButton(selectedButton).value && subSelection == 0 && shown == Unchanged
      ensures selectedButton == 5 ==>
        current == old(current) && subSelection == old(subSelection)
        && shown == Toast("Video AI: Coming Soon...", 2000)
      ensures bars == if current == InfoMenu && selectedButton == 0 then InfoBarsAsDrawn(stats) else []
      ensures bars != [] ==> bars[..2] == InfoBars(stats)[..2] && bars[3] == InfoBars(stats)[3]
    {
      shown, bars := Unchanged, [];
      var m := MenuOfButton(selectedButton);
      if m.Some? {
        current := m.value;
        subSelection := 0;
        if m.value == InfoMenu {
          bars := InfoBarsAsDrawn(stats);
        }
      } else {
        shown := Toast("Video AI: Coming Soon...", 2000);
      }
    }

    /** `menu_system_handle_sub_selection`, with the start of the information page's actions as a parameter. */
    method HandleSubSelection(start: uint32) returns (r: Reaction)
      modifies this`current
      ensures r == SubSelection(old(current), subSelection, start, hasCallback)
      ensures current == if r.toMain then MainMenu else old(current)
    {
      r := SubSelection(current, subSelection, start, hasCallback);
      if r.toMain {
        current := MainMenu;
      }
    }

    /** `menu_system_hide_sub_menu`. */
    method HideSubMenu()
      modifies this`current
      ensures current == MainMenu
    {
      current := MainMenu;
    }

    /** `menu_system_init_pet_stats`: the defaults, also returned to the caller. */
    method InitPetStats() returns (s: Stats)
      modifies this`stats
      ensures s == DefaultStats && stats == DefaultStats && Bounded(stats)
    {
      s := DefaultStats;
      stats := s;
    }

    /** `menu_system_update_pet_stats`: 1 for a missing record, otherwise 0 after merging. */
    method UpdatePetStats(input: Option<Stats>) returns (rt: byte)
      requires Valid()
      modifies this`stats
      ensures Valid()
      ensures rt == 1 <==> input.None?
      ensures rt == 0 <==> input.Some?
      ensures stats == if input.Some? then Merge(old(stats), input.value) else old(stats)
    {
      if input.None? {
        return 1;
      }
      stats := Merge(stats, input.value);
      rt := 0;
    }

    /** `menu_system_update_pet_stats_for_testing`. */
    method UpdateForTesting()
      requires Valid()
      modifies this`stats
      ensures Valid()
      ensures stats == TestStep(old(stats))
    {
      stats := TestStep(stats);
    }
  }
}
