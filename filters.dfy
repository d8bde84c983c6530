/**
 * The proctoring filter panel (ProctoringFilters): a fixed record of fourteen
 * boolean flags in five categories, an all-false default, a single-flag
 * update built by object spread, a reset, and the count of active flags shown
 * on the panel's badge. The panel keeps the current flags as component state
 * and reports every new value to its parent through `onFiltersChange`.
 */
module Filters {

  datatype WindowFlags = WindowFlags(above1min: bool, upTo1min: bool, upTo10sec: bool)
  datatype ImageFlags = ImageFlags(above5: bool, between3and5: bool, between0and2: bool)
  datatype DeviceFlags = DeviceFlags(headphones: bool, cellphone: bool)
  datatype TimeFlags = TimeFlags(early: bool, late: bool)
  datatype SeverityFlags = SeverityFlags(high: bool, medium: bool, low: bool, none: bool)

  datatype ViolationFilters = ViolationFilters(
    window: WindowFlags,
    image: ImageFlags,
    device: DeviceFlags,
    time: TimeFlags,
    severity: SeverityFlags)

  /** The keys of each category. */
  datatype WindowKey = Above1Min | UpTo1Min | UpTo10Sec
  datatype ImageKey = Above5 | Between3And5 | Between0And2
  datatype DeviceKey = Headphones | Cellphone
  datatype TimeKey = Early | Late
  datatype SeverityKey = High | Medium | Low | None

  /** A (category, key) pair as the checkboxes pass it to `handleFilterChange`;
      the constructor is the category. */
  datatype Selector =
    | Window(wk: WindowKey)
    | Image(ik: ImageKey)
    | Device(dk: DeviceKey)
    | Time(tk: TimeKey)
    | Severity(sk: SeverityKey)

  /** `defaultFilters`: every flag false. */
  function DefaultFilters(): (r: ViolationFilters)
    ensures forall s :: !Get(r, s)
  {
    ViolationFilters(
      WindowFlags(false, false, false),
      ImageFlags(false, false, false),
      DeviceFlags(false, false),
      TimeFlags(false, false),
      SeverityFlags(false, false, false, false))
  }

  /** The flags of each category in declaration order, and all fourteen. */
  const WindowSelectors: seq<Selector> := [Window(Above1Min), Window(UpTo1Min), Window(UpTo10Sec)]
  const ImageSelectors: seq<Selector> := [Image(Above5), Image(Between3And5), Image(Between0And2)]
  const DeviceSelectors: seq<Selector> := [Device(Headphones), Device(Cellphone)]
  const TimeSelectors: seq<Selector> := [Time(Early), Time(Late)]
  const SeveritySelectors: seq<Selector> := [Severity(High), Severity(Medium), Severity(Low), Severity(None)]
  const AllSelectors: seq<Selector> :=
    WindowSelectors + ImageSelectors + DeviceSelectors + TimeSelectors + SeveritySelectors

  /** `filters[category][key]` */
  function Get(f: ViolationFilters, s: Selector): (r: bool)
  {
    match s
    case Window(k) =>
      (match k case Above1Min => f.window.above1min case UpTo1Min => f.window.upTo1min case UpTo10Sec => f.window.upTo10sec)
    case Image(k) =>
      (match k case Above5 => f.image.above5 case Between3And5 => f.image.between3and5 case Between0And2 => f.image.between0and2)
    case Device(k) =>
      (match k case Headphones => f.device.headphones case Cellphone => f.device.cellphone)
    case Time(k) =>
      (match k case Early => f.time.early case Late => f.time.late)
    case Severity(k) =>
      (match k case High => f.severity.high case Medium => f.severity.medium
               case Low => f.severity.low case None => f.severity.none)
  }

  /** Two filter values are equal exactly when they agree on every flag. */
  lemma FiltersEqualIffSameFlags(f: ViolationFilters, g: ViolationFilters)
    ensures f == g <==> forall s :: Get(f, s) == Get(g, s)
  {
    if forall s :: Get(f, s) == Get(g, s) {
      assert Get(f, Window(Above1Min)) == Get(g, Window(Above1Min));
      assert Get(f, Window(UpTo1Min)) == Get(g, Window(UpTo1Min));
      assert Get(f, Window(UpTo10Sec)) == Get(g, Window(UpTo10Sec));
      assert Get(f, Image(Above5)) == Get(g, Image(Above5));
      assert Get(f, Image(Between3And5)) == Get(g, Image(Between3And5));
      assert Get(f, Image(Between0And2)) == Get(g, Image(Between0And2));
      assert Get(f, Device(Headphones)) == Get(g, Device(Headphones));
      assert Get(f, Device(Cellphone)) == Get(g, Device(Cellphone));
      assert Get(f, Time(Early)) == Get(g, Time(Early));
      assert Get(f, Time(Late)) == Get(g, Time(Late));
      assert Get(f, Severity(High)) == Get(g, Severity(High));
      assert Get(f, Severity(Medium)) == Get(g, Severity(Medium));
      assert Get(f, Severity(Low)) == Get(g, Severity(Low));
      assert Get(f, Severity(None)) == Get(g, Severity(None));
    }
  }

  /** The new value `handleFilterChange` builds by spreading: flag `s` becomes
      `checked`, every other flag of the same category and every other
      category keep their values. */
  function SetFlag(f: ViolationFilters, s: Selector, checked: bool): (r: ViolationFilters)
    ensures Get(r, s) == checked
    ensures forall s' :: s' != s ==> Get(r, s') == Get(f, s')
    ensures !s.Window? ==> r.window == f.window
    ensures !s.Image? ==> r.image == f.image
    ensures !s.Device? ==> r.device == f.device
    ensures !s.Time? ==> r.time == f.time
    ensures !s.Severity? ==> r.severity == f.severity
  {
    match s
    case Window(k) =>
      f.(window := match k
        case Above1Min => f.window.(above1min := checked)
        case UpTo1Min => f.window.(upTo1min := checked)
        case UpTo10Sec => f.window.(upTo10sec := checked))
    case Image(k) =>
      f.(image := match k
        case Above5 => f.image.(above5 := checked)
        case Between3And5 => f.image.(between3and5 := checked)
        case Between0And2 => f.image.(between0and2 := checked))
    case Device(k) =>
      f.(device := match k
        case Headphones => f.device.(headphones := checked)
        case Cellphone => f.device.(cellphone := checked))
    case Time(k) =>
      f.(time := match k
        case Early => f.time.(early := checked)
        case Late => f.time.(late := checked))
    case Severity(k) =>
      f.(severity := match k
        case High => f.severity.(high := checked)
        case Medium => f.severity.(medium := checked)
        case Low => f.severity.(low := checked)
        case None => f.severity.(none := checked))
  }

  function B2N(b: bool): nat
  {
    if b then 1 else 0
  }

  /** `Object.values(category).filter(Boolean).length` for each category. */
  function WindowCount(w: WindowFlags): nat { B2N(w.above1min) + B2N(w.upTo1min) + B2N(w.upTo10sec) }
  function ImageCount(i: ImageFlags): nat { B2N(i.above5) + B2N(i.between3and5) + B2N(i.between0and2) }
  function DeviceCount(d: DeviceFlags): nat { B2N(d.headphones) + B2N(d.cellphone) }
  function TimeCount(t: TimeFlags): nat { B2N(t.early) + B2N(t.late) }
  function SeverityCount(s: SeverityFlags): nat { B2N(s.high) + B2N(s.medium) + B2N(s.low) + B2N(s.none) }

  /** `getActiveFilterCount`: the per-category counts summed by a `reduce`
      from 0. It is at most 14, and 0 exactly for `defaultFilters`. */
  function CountActive(f: ViolationFilters): (n: nat)
    ensures n <= 14
    ensures n == 0 <==> f == DefaultFilters()
  {
    WindowCount(f.window) + ImageCount(f.image) + DeviceCount(f.device) + TimeCount(f.time)
    + SeverityCount(f.severity)
  }

  /** The number of selectors in `ss` whose flag is set in `f`. */
  function CountSet(f: ViolationFilters, ss: seq<Selector>): (n: nat)
    ensures n <= |ss|
  {
    if ss == [] then 0 else B2N(Get(f, ss[0])) + CountSet(f, ss[1..])
  }

  /** `AllSelectors` names every flag exactly once. */
  lemma AllSelectorsEnumerates()
    ensures forall s :: s in AllSelectors
    ensures forall i, j :: 0 <= i < j < |AllSelectors| ==> AllSelectors[i] != AllSelectors[j]
  {
    forall s ensures s in AllSelectors {
      match s
      case Window(k) => assert k == Above1Min || k == UpTo1Min || k == UpTo10Sec;
      case Image(k) => assert k == Above5 || k == Between3And5 || k == Between0And2;
      case Device(k) => assert k == Headphones || k == Cellphone;
      case Time(k) => assert k == Early || k == Late;
      case Severity(k) => assert k == High || k == Medium || k == Low || k == None;
    }
  }

  lemma {:induction false} CountSetAppend(f: ViolationFilters, a: seq<Selector>, b: seq<Selector>)
    ensures CountSet(f, a + b) == CountSet(f, a) + CountSet(f, b)
  {
    if a != [] {
      assert (a + b)[0] == a[0] && (a + b)[1..] == a[1..] + b;
      CountSetAppend(f, a[1..], b);
    } else {
      assert a + b == b;
    }
  }

  /** `CountSet` of a short list, one element at a time. */
  lemma CountSetByElement(f: ViolationFilters, ss: seq<Selector>)
    requires 2 <= |ss| <= 4
    ensures CountSet(f, ss) == B2N(Get(f, ss[0])) + B2N(Get(f, ss[1]))
              + (if |ss| > 2 then B2N(Get(f, ss[2])) else 0) + (if |ss| > 3 then B2N(Get(f, ss[3])) else 0)
  {
    assert ss[1..][1..] == ss[2..];
    if |ss| > 2 {
      assert ss[2..][1..] == ss[3..];
    }
    if |ss| > 3 {
      assert ss[3..][1..] == ss[4..];
    }
  }

  /** Each category's count is the number of its set flags. */
  lemma CategoryCountsCountSetFlags(f: ViolationFilters)
    ensures CountSet(f, WindowSelectors) == WindowCount(f.window)
    ensures CountSet(f, ImageSelectors) == ImageCount(f.image)
    ensures CountSet(f, DeviceSelectors) == DeviceCount(f.device)
    ensures CountSet(f, TimeSelectors) == TimeCount(f.time)
    ensures CountSet(f, SeveritySelectors) == SeverityCount(f.severity)
  {
    CountSetByElement(f, WindowSelectors);
    CountSetByElement(f, ImageSelectors);
    CountSetByElement(f, DeviceSelectors);
    CountSetByElement(f, TimeSelectors);
    CountSetByElement(f, SeveritySelectors);
  }

  /** The active count is the number of flags that are set, over all fourteen. */
  lemma CountActiveCountsSetFlags(f: ViolationFilters)
    ensures CountActive(f) == CountSet(f, AllSelectors)
  {
    var w, i, d, t, s := WindowSelectors, ImageSelectors, DeviceSelectors, TimeSelectors, SeveritySelectors;
    CountSetAppend(f, w + i + d + t, s);
    CountSetAppend(f, w + i + d, t);
    CountSetAppend(f, w + i, d);
    CountSetAppend(f, w, i);
    CategoryCountsCountSetFlags(f);
  }

  /** Writing flag `s` changes the number of set flags among `ss`, a list
      naming `s` once, by the change of that one flag. */
  lemma {:induction false} CountSetAfterSetFlag(f: ViolationFilters, s: Selector, checked: bool, ss: seq<Selector>)
    requires forall i, j :: 0 <= i < j < |ss| ==> ss[i] != ss[j]
    ensures s in ss ==> CountSet(SetFlag(f, s, checked), ss) == CountSet(f, ss) - B2N(Get(f, s)) + B2N(checked)
    ensures s !in ss ==> CountSet(SetFlag(f, s, checked), ss) == CountSet(f, ss)
  {
    if ss != [] {
      CountSetAfterSetFlag(f, s, checked, ss[1..]);
      if ss[0] == s {
        assert s !in ss[1..];
      }
    }
  }

  /** Setting a false flag raises the active count by one, clearing a true
      flag lowers it by one, and writing a flag's current value leaves the
      count and the whole value unchanged. */
  lemma CountAfterSetFlag(f: ViolationFilters, s: Selector, checked: bool)
    ensures !Get(f, s) && checked ==> CountActive(SetFlag(f, s, checked)) == CountActive(f) + 1
    ensures Get(f, s) && !checked ==> CountActive(SetFlag(f, s, checked)) == CountActive(f) - 1
    ensures Get(f, s) == checked ==> SetFlag(f, s, checked) == f
  {
    AllSelectorsEnumerates();
    CountActiveCountsSetFlags(f);
    CountActiveCountsSetFlags(SetFlag(f, s, checked));
    CountSetAfterSetFlag(f, s, checked, AllSelectors);
    FiltersEqualIffSameFlags(SetFlag(f, s, checked), f);
  }

  /** The filter panel's component state. */
  class FilterPanel {
    var filters: ViolationFilters

    /** `useState(defaultFilters)` */
    constructor ()
      ensures filters == DefaultFilters()
    {
      filters := DefaultFilters();
    }

    /** `handleFilterChange(category, key, checked)`: stores the updated value
        and returns the value passed to `onFiltersChange`, which is the one
        just stored. */
    method HandleFilterChange(s: Selector, checked: bool) returns (reported: ViolationFilters)
      modifies this
      ensures filters == SetFlag(old(filters), s, checked)
      ensures reported == filters
    {
      var newFilters := SetFlag(filters, s, checked);
      filters := newFilters;
      reported := newFilters;
    }

    /** `clearFilters`: stores and reports `defaultFilters`, whatever the
        previous state, so clearing twice leaves what clearing once does. */
    method ClearFilters() returns (reported: ViolationFilters)
      modifies this
      ensures filters == DefaultFilters()
      ensures reported == filters
    {
      filters := DefaultFilters();
      reported := DefaultFilters();
    }
  }
}
