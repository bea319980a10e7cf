/**
 * The storage fill-threshold postfix on the host's "no storage blockers in cell" check.
 *
 * The host answers whether cell `c` of a map is free of things that block storing
 * `thing` there (`true` = free). The postfix runs afterwards and may only tighten
 * that answer: it reads the fill percentage of the cell's slot group (100 when
 * there is none), lets a replaceable extension hook decide, and otherwise treats
 * the cell as blocked when a storable thing on it already holds at least
 * `stackLimit * fillPercent / 100` items.
 *
 * The host's cell, map and thing objects are replaced by the values the postfix
 * reads from them (`Site`, `Candidate`).
 */
module StorageBlockers {

  datatype Option<+T> = None | Some(value: T)

  /** A cell coordinate on the host's map. */
  datatype IntVec3 = IntVec3(x: int, y: int, z: int)

  /**
   * A slot group's settings as the postfix sees them: their presence stands for
   * the host's non-null `Settings`, and `fillPercent` for the fill percentage the
   * mod keeps for those settings.
   */
  datatype FillSettings = FillSettings(fillPercent: real)

  /** A slot group whose `Settings` may be null (`None`). */
  datatype SlotGroup = SlotGroup(settings: Option<FillSettings>)

  /** A thing lying on the cell: whether its def is ever storable, and its stack count. */
  datatype CellThing = CellThing(storable: bool, stackCount: int)

  /**
   * What the host's map says about the cell: its coordinate, its slot group
   * (`None` when the cell belongs to none) and the things listed at it.
   */
  datatype Site = Site(cell: IntVec3, slotGroup: Option<SlotGroup>, things: seq<CellThing>)

  /** The thing to be stored; only its def's stack limit is read. */
  datatype Candidate = Candidate(stackLimit: nat)

  /**
   * The extension hook: from the cell, the thing and the fill percentage to an
   * optional verdict. `None` abstains; `Some(v)` becomes the postfix's result.
   */
  type Hook = (Site, Candidate, real) -> Option<bool>

  /** The hook installed at start-up: it always abstains. */
  function Abstain(site: Site, thing: Candidate, fillPercent: real): (verdict: Option<bool>)
    ensures verdict.None?
  {
    None
  }

  /** The fill percentage used when the cell has no slot group or no settings. */
  const DefaultFillPercent: real := 100.0

  /** The fill percentage the postfix works with for a cell in `slotGroup`. */
  function FillPercentAt(slotGroup: Option<SlotGroup>): (p: real)
    ensures slotGroup.None? || slotGroup.value.settings.None? ==> p == DefaultFillPercent
    ensures slotGroup.Some? && slotGroup.value.settings.Some? ==> p == slotGroup.value.settings.value.fillPercent
  {
    match slotGroup
    case Some(SlotGroup(Some(settings))) => settings.fillPercent
    case _ => DefaultFillPercent
  }

  /** The verdict the installed hook gives; a null hook field abstains. */
  function Consult(custom: Option<Hook>, site: Site, thing: Candidate, fillPercent: real): (verdict: Option<bool>)
    ensures custom.None? ==> verdict.None?
    ensures custom.Some? ==> verdict == custom.value(site, thing, fillPercent)
  {
    match custom
    case Some(hook) => hook(site, thing, fillPercent)
    case None => None
  }

  /** One thing on the cell blocks when it is storable and filled to the threshold. */
  predicate Blocks(t: CellThing, stackLimit: nat, fillPercent: real): (b: bool)
    ensures b ==> t.storable
  {
    t.storable && t.stackCount as real >= stackLimit as real * (fillPercent / 100.0)
  }

  /** The `Any` over the things listed at the cell. */
  function AnyBlocker(things: seq<CellThing>, stackLimit: nat, fillPercent: real): (b: bool)
    ensures b <==> exists i :: 0 <= i < |things| && Blocks(things[i], stackLimit, fillPercent)
  {
    if things == [] then false
    else Blocks(things[0], stackLimit, fillPercent) || AnyBlocker(things[1..], stackLimit, fillPercent)
  }

  /**
   * What the postfix leaves in the result slot, given the host's answer `result`
   * and the hook field `custom`, written as one decision.
   */
  function FilledEnoughSpec(result: bool, site: Site, thing: Candidate, custom: Option<Hook>): (r: bool)
    ensures r ==> result
  {
    result &&
      var fillPercent := FillPercentAt(site.slotGroup);
      match Consult(custom, site, thing, fillPercent)
      case Some(verdict) => verdict
      case None =>
        !exists i :: 0 <= i < |site.things| && Blocks(site.things[i], thing.stackLimit, fillPercent)
  }

  /** The patch class; its one field is the process-wide, replaceable hook. */
  class NoStorageBlockersInPatch {
    var customFilledEnough: Option<Hook>

    constructor ()
      ensures customFilledEnough == Some(Abstain)
    {
      customFilledEnough := Some(Abstain);
    }

    /**
     * The postfix. `result` is the host's answer coming in and `r` the value left
     * in the result slot.
     */
    method FilledEnough(result: bool, site: Site, thing: Candidate) returns (r: bool)
      ensures r ==> result
      ensures r == FilledEnoughSpec(result, site, thing, customFilledEnough)
    {
      r := result;
      if r {
        var fillPercent := DefaultFillPercent;
        var slotGroup := site.slotGroup;
        if slotGroup.Some? && slotGroup.value.settings.Some? {
          fillPercent := slotGroup.value.settings.value.fillPercent;
        }
        var customResult := None;
        if customFilledEnough.Some? {
          customResult := customFilledEnough.value(site, thing, fillPercent);
        }
        if customResult.Some? {
          r := customResult.value;
        } else {
          r := r && !AnyBlocker(site.things, thing.stackLimit, fillPercent);
        }
      }
    }
  }

  // ---------------------------------------------------------------------------
  // Properties of the postfix
  // ---------------------------------------------------------------------------

  /** A blocked cell stays blocked, whatever the slot group, the things or the hook. */
  lemma BlockedStaysBlocked(site: Site, thing: Candidate, custom: Option<Hook>)
    ensures !FilledEnoughSpec(false, site, thing, custom)
  {
  }

  /**
   * The hook is given 100 when the cell has no slot group or its settings are
   * null, and the configured percentage otherwise.
   */
  lemma HookSeesFillPercent(site: Site, thing: Candidate, hook: Hook)
    ensures site.slotGroup.None? || site.slotGroup.value.settings.None? ==>
      FilledEnoughSpec(true, site, thing, Some(hook)) ==
        match hook(site, thing, 100.0)
        case Some(verdict) => verdict
        case None => !AnyBlocker(site.things, thing.stackLimit, 100.0)
    ensures site.slotGroup.Some? && site.slotGroup.value.settings.Some? ==>
      var p := site.slotGroup.value.settings.value.fillPercent;
      FilledEnoughSpec(true, site, thing, Some(hook)) ==
        match hook(site, thing, p)
        case Some(verdict) => verdict
        case None => !AnyBlocker(site.things, thing.stackLimit, p)
  {
  }

  /**
   * On a free cell a verdict from the hook is the result exactly, even where the
   * stack rule would have blocked or would have let the cell through.
   */
  lemma VerdictOverrides(site: Site, thing: Candidate, hook: Hook, verdict: bool)
    requires hook(site, thing, FillPercentAt(site.slotGroup)) == Some(verdict)
    ensures FilledEnoughSpec(true, site, thing, Some(hook)) == verdict
  {
  }

  /**
   * With the hook installed at start-up (or a null hook field) the result is the
   * host's answer tightened by the stack rule alone.
   */
  lemma DefaultHookRule(result: bool, site: Site, thing: Candidate)
    ensures FilledEnoughSpec(result, site, thing, Some(Abstain)) ==
      (result && !AnyBlocker(site.things, thing.stackLimit, FillPercentAt(site.slotGroup)))
    ensures FilledEnoughSpec(result, site, thing, None) ==
      FilledEnoughSpec(result, site, thing, Some(Abstain))
  {
  }

  /** A stack limit of 75 at 50%: a stack of 38 blocks and one of 37 does not. */
  lemma HalfFullExample(cell: IntVec3)
    ensures var site := Site(cell, Some(SlotGroup(Some(FillSettings(50.0)))), [CellThing(true, 38)]);
      !FilledEnoughSpec(true, site, Candidate(75), Some(Abstain))
    ensures var site := Site(cell, Some(SlotGroup(Some(FillSettings(50.0)))), [CellThing(true, 37)]);
      FilledEnoughSpec(true, site, Candidate(75), Some(Abstain))
  {
    var blocked := Site(cell, Some(SlotGroup(Some(FillSettings(50.0)))), [CellThing(true, 38)]);
    assert Blocks(blocked.things[0], 75, FillPercentAt(blocked.slotGroup));
    assert !Blocks(CellThing(true, 37), 75, 50.0);
  }

  /**
   * The stack rule only looks at storable things: changing the stack count of a
   * non-storable thing never changes its answer.
   */
  lemma NonStorableIgnored(a: seq<CellThing>, b: seq<CellThing>, stackLimit: nat, fillPercent: real)
    requires |a| == |b|
    requires forall i :: 0 <= i < |a| ==> a[i].storable == b[i].storable
    requires forall i :: 0 <= i < |a| && a[i].storable ==> a[i].stackCount == b[i].stackCount
    ensures AnyBlocker(a, stackLimit, fillPercent) == AnyBlocker(b, stackLimit, fillPercent)
  {
  }

  /** A cell holding only non-storable things keeps the host's answer under the stack rule. */
  lemma NonStorableNeverBlocks(things: seq<CellThing>, stackLimit: nat, fillPercent: real)
    requires forall i :: 0 <= i < |things| ==> !things[i].storable
    ensures !AnyBlocker(things, stackLimit, fillPercent)
  {
  }

  /** Raising the fill percentage never makes a thing block that did not before. */
  lemma AnyBlockerMonotone(things: seq<CellThing>, stackLimit: nat, p1: real, p2: real)
    requires p1 <= p2
    ensures AnyBlocker(things, stackLimit, p2) ==> AnyBlocker(things, stackLimit, p1)
  {
  }

  /**
   * Under the start-up hook, raising the configured fill percentage of the cell's
   * slot group never turns "free" into "blocked".
   */
  lemma DefaultRuleMonotone(result: bool, cell: IntVec3, things: seq<CellThing>, thing: Candidate, p1: real, p2: real)
    requires p1 <= p2
    ensures
      var low := Site(cell, Some(SlotGroup(Some(FillSettings(p1)))), things);
      var high := Site(cell, Some(SlotGroup(Some(FillSettings(p2)))), things);
      FilledEnoughSpec(result, low, thing, Some(Abstain)) ==> FilledEnoughSpec(result, high, thing, Some(Abstain))
  {
  }

  /**
   * For a whole percentage `p` the real comparison is the integer test
   * `100 * stackCount >= stackLimit * p`.
   */
  lemma ScaledIntegerTest(t: CellThing, stackLimit: nat, p: int)
    ensures Blocks(t, stackLimit, p as real) <==> t.storable && 100 * t.stackCount >= stackLimit * p
  {
  }

  /**
   * Under the start-up hook, a fill percentage of 100 or more keeps the host's
   * answer on every cell where no storable thing holds a full stack.
   */
  lemma AtLeastFullKeepsHostAnswer(result: bool, site: Site, thing: Candidate)
    requires FillPercentAt(site.slotGroup) >= 100.0
    requires forall i :: 0 <= i < |site.things| && site.things[i].storable ==>
      site.things[i].stackCount < thing.stackLimit
    ensures FilledEnoughSpec(result, site, thing, Some(Abstain)) == result
  {
  }

  /** At the default 100% a thing blocks exactly when it is storable and holds a full stack. */
  lemma FullPercentIsFullStack(things: seq<CellThing>, stackLimit: nat)
    ensures AnyBlocker(things, stackLimit, DefaultFillPercent) <==>
      exists i :: 0 <= i < |things| && things[i].storable && things[i].stackCount >= stackLimit
  {
  }

  /**
   * At 0% every storable thing with a non-negative count blocks, but an empty
   * cell stays free.
   */
  lemma ZeroFill(cell: IntVec3, things: seq<CellThing>, thing: Candidate)
    ensures (exists i :: 0 <= i < |things| && things[i].storable && things[i].stackCount >= 0) ==>
      !FilledEnoughSpec(true, Site(cell, Some(SlotGroup(Some(FillSettings(0.0)))), things), thing, Some(Abstain))
    ensures FilledEnoughSpec(true, Site(cell, Some(SlotGroup(Some(FillSettings(0.0)))), []), thing, Some(Abstain))
  {
  }
}
