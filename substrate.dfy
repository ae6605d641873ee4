/** The nomination-model delegation extension: a delegator (nominator) bonds
    funds and nominates several validators; actions, display items, the
    reward history and the expected-reward projection are derived from the
    nominator's and the validators' on-chain details. */
module SubstrateDelegation {
  import opened Common

  datatype ActionType =
    | BondNominate
    | Nominate
    | ChangeNomination
    | BondExtra
    | CancelNomination
    | Unbond
    | WithdrawUnbonded
    | OtherAction(name: string)   // any other staking action the chain reports

  /** Delegate actions, sorted by priority. */
  const DelegateActions: seq<ActionType> := [BondNominate, Nominate, ChangeNomination, BondExtra]

  /** Undelegate actions, sorted by priority. */
  const UndelegateActions: seq<ActionType> := [CancelNomination, Unbond]

  const SupportedActions: seq<ActionType> := DelegateActions + UndelegateActions + [WithdrawUnbonded]

  /** Name of the argument through which an action accepts an amount. */
  const ValueArgument: string := "value"

  /** An action the chain says the nominator may perform now. */
  datatype DelegatorAction = DelegatorAction(kind: ActionType, args: seq<string>)

  datatype Lock = Lock(value: int, expectedUnlock: int)

  datatype Reward = Reward(eraIndex: int, amount: int, timestamp: int)

  datatype StakingDetails = StakingDetails(
    total: int,
    active: int,
    unlocked: int,
    locked: seq<Lock>,
    status: string,
    nextEra: int,
    rewards: seq<Reward>)

  datatype NominatorDetails = NominatorDetails(
    address: string,
    delegatees: seq<string>,
    availableActions: seq<DelegatorAction>,
    stakingDetails: Option<StakingDetails>)

  /** A validator as the chain reports it; absent fields are `None`. */
  datatype ValidatorDetails = ValidatorDetails(
    address: string,
    name: Option<string>,
    status: Option<string>,
    ownStash: Option<int>,
    totalStakingBalance: Option<int>,
    commission: Option<real>,
    lastEraReward: Option<int>)

  datatype ElectionStatus = Open | Close

  /** A form field set prepared for an action (validators of the form are UI). */
  datatype Form =
    | DelegateForm(targets: seq<string>, value: int)
    | UndelegateForm(value: int)

  /** A translation key with its named amount parameters. */
  datatype Description = Description(key: string, params: seq<(string, int)>)

  datatype Action = Action(
    kind: ActionType,
    labelKey: Option<string>,
    description: Option<Description>,
    confirmLabel: Option<string>,
    icon: Option<string>,
    form: Option<Form>,
    amountInput: bool)

  datatype Alert = Alert(title: string, description: string, icon: string, color: string)

  datatype DelegatorDetails = DelegatorDetails(
    nominator: NominatorDetails,
    mainActions: seq<Action>,
    secondaryActions: seq<Action>,
    displayDetails: seq<DisplayItem>)

  datatype DelegateeDetails = DelegateeDetails(
    validator: ValidatorDetails,
    name: string,
    status: string,
    usageDetails: UsageDetails,
    displayDetails: seq<DisplayItem>)

  datatype DelegationDetails = DelegationDetails(
    alerts: Option<seq<Alert>>,
    delegator: DelegatorDetails,
    delegatees: seq<DelegateeDetails>)

  datatype RewardRow = RewardRow(index: int, amount: int, timestamp: int)

  datatype RewardList = RewardList(
    rewards: seq<RewardRow>,
    indexColLabel: string,
    amountColLabel: string,
    payoutColLabel: string)

  /** The answers of the node for one query: each fetch either succeeds or fails. */
  datatype Node = Node(
    nominatorDetails: Result<NominatorDetails>,
    validatorDetails: string -> Result<ValidatorDetails>,
    maxDelegationValue: Result<int>,
    existentialDeposit: Result<int>,
    electionStatus: Result<ElectionStatus>)

  // ---------------------------------------------------------------------------
  // Singleton construction

  class SubstrateDelegationExtensions {
    const delegateeLabel: string
    const delegateeLabelPlural: string
    const supportsMultipleDelegations: bool

    constructor ()
      ensures delegateeLabel == "delegation-detail-substrate.delegatee-label"
      ensures delegateeLabelPlural == "delegation-detail-substrate.delegatee-label-plural"
      ensures supportsMultipleDelegations
    {
      delegateeLabel := "delegation-detail-substrate.delegatee-label";
      delegateeLabelPlural := "delegation-detail-substrate.delegatee-label-plural";
      supportsMultipleDelegations := true;
    }
  }

  /** Holds the class's static `instance` field. */
  class ExtensionInstance {
    var instance: SubstrateDelegationExtensions?

    constructor ()
      ensures instance == null
    {
      instance := null;
    }

    /** Builds the extension on the first call and returns that same object ever after. */
    method Create() returns (e: SubstrateDelegationExtensions)
      modifies this
      ensures old(instance) != null ==> e == old(instance)
      ensures old(instance) == null ==> fresh(e) && e.supportsMultipleDelegations
      ensures instance == e
    {
      if instance == null {
        instance := new SubstrateDelegationExtensions();
      }
      e := instance;
    }
  }

  // ---------------------------------------------------------------------------
  // Action selection

  /** Position of `k` in `priority`, or |priority| when `k` is not listed. */
  function PriorityOf(priority: seq<ActionType>, k: ActionType): (n: nat)
    ensures n <= |priority|
    ensures n < |priority| <==> k in priority
    ensures n < |priority| ==> priority[n] == k && k !in priority[..n]
  {
    if priority == [] then 0
    else if priority[0] == k then 0
    else 1 + PriorityOf(priority[1..], k)
  }

  /** Head of the available actions of a listed kind, sorted (stably) by
      their kind's position in `priority`. */
  function SelectByPriority(actions: seq<DelegatorAction>, priority: seq<ActionType>): (r: Option<DelegatorAction>)
    ensures r.None? <==> forall a :: a in actions ==> a.kind !in priority
    ensures r.Some? ==> r.value in actions && r.value.kind in priority
    ensures r.Some? ==>
      forall a :: a in actions && a.kind in priority ==>
        PriorityOf(priority, r.value.kind) <= PriorityOf(priority, a.kind)
  {
    if actions == [] then None
    else
      var rest := SelectByPriority(actions[1..], priority);
      if actions[0].kind !in priority then rest
      else if rest.Some? && PriorityOf(priority, rest.value.kind) < PriorityOf(priority, actions[0].kind) then rest
      else Some(actions[0])
  }

  /** Ties go to list order: every listed action before the chosen one ranks
      strictly lower, so the choice is the first best-ranked action, as a
      stable sort followed by taking the head gives. */
  lemma {:induction false} SelectionIsFirstBest(actions: seq<DelegatorAction>, priority: seq<ActionType>)
    ensures var r := SelectByPriority(actions, priority);
      r.Some? ==> exists j ::
        && 0 <= j < |actions|
        && actions[j] == r.value
        && (forall i :: 0 <= i < j && actions[i].kind in priority ==>
              PriorityOf(priority, r.value.kind) < PriorityOf(priority, actions[i].kind))
  {
    if actions != [] {
      var r := SelectByPriority(actions, priority);
      var tail := actions[1..];
      var rest := SelectByPriority(tail, priority);
      SelectionIsFirstBest(tail, priority);
      if r == Some(actions[0]) {
        assert actions[0] == r.value;
      } else if r.Some? {
        assert r == rest;
        var j :| && 0 <= j < |tail|
                 && tail[j] == rest.value
                 && (forall i :: 0 <= i < j && tail[i].kind in priority ==>
                       PriorityOf(priority, rest.value.kind) < PriorityOf(priority, tail[i].kind));
        OutranksShifted(actions, priority, r.value, j);
      }
    }
  }

  /** Moving the witness of the tail one place right: if the head ranks
      strictly lower too, every listed action before position `j + 1` does. */
  lemma OutranksShifted(actions: seq<DelegatorAction>, priority: seq<ActionType>, best: DelegatorAction, j: nat)
    requires j + 1 < |actions| && actions[j + 1] == best
    requires actions[0].kind in priority ==> PriorityOf(priority, best.kind) < PriorityOf(priority, actions[0].kind)
    requires forall i :: 0 <= i < j && actions[1..][i].kind in priority ==>
      PriorityOf(priority, best.kind) < PriorityOf(priority, actions[1..][i].kind)
    ensures forall i :: 0 <= i < j + 1 && actions[i].kind in priority ==>
      PriorityOf(priority, best.kind) < PriorityOf(priority, actions[i].kind)
  {
    forall i | 0 < i < j + 1
      ensures actions[i] == actions[1..][i - 1]
    {
    }
  }

  lemma NominateOutranksBondExtra()
    ensures SelectByPriority([DelegatorAction(BondExtra, []), DelegatorAction(Nominate, [])], DelegateActions)
         == Some(DelegatorAction(Nominate, []))
  {
    var actions := [DelegatorAction(BondExtra, []), DelegatorAction(Nominate, [])];
    assert PriorityOf(DelegateActions, Nominate) == 1;
    assert PriorityOf(DelegateActions, BondExtra) == 3;
    assert actions[1..] == [DelegatorAction(Nominate, [])];
  }

  predicate IsSupported(a: DelegatorAction) {
    a.kind in SupportedActions
  }

  predicate IsExtra(a: DelegatorAction) {
    a.kind !in DelegateActions && a.kind !in UndelegateActions
  }

  predicate IsWithdraw(a: DelegatorAction) {
    a.kind == WithdrawUnbonded
  }

  /** Among supported actions, the extra ones are exactly the WITHDRAW_UNBONDED
      actions, in source order. */
  lemma {:induction false} ExtraActionsAreWithdrawals(actions: seq<DelegatorAction>)
    ensures Filter(Filter(actions, IsSupported), IsExtra) == Filter(actions, IsWithdraw)
  {
    if actions != [] {
      var a := actions[0];
      var tail := actions[1..];
      ExtraActionsAreWithdrawals(tail);
      var head := if IsSupported(a) then [a] else [];
      assert Filter(actions, IsSupported) == head + Filter(tail, IsSupported);
      assert Filter(actions, IsWithdraw) == (if IsWithdraw(a) then [a] else []) + Filter(tail, IsWithdraw);
      FilterAppend(head, Filter(tail, IsSupported), IsExtra);
      ExtraHeadIsWithdrawal(a);
    }
  }

  /** The one-action case of `ExtraActionsAreWithdrawals`. */
  lemma ExtraHeadIsWithdrawal(a: DelegatorAction)
    ensures Filter(if IsSupported(a) then [a] else [], IsExtra) == if IsWithdraw(a) then [a] else []
  {
    assert (IsSupported(a) && IsExtra(a)) == IsWithdraw(a);
    if IsSupported(a) {
      assert Filter([a], IsExtra) == (if IsExtra(a) then [a] else []) + Filter([a][1..], IsExtra);
      assert [a][1..] == [];
    } else {
      assert Filter([], IsExtra) == [];
    }
  }

  // ---------------------------------------------------------------------------
  // Delegate, undelegate and extra actions

  function DelegateDescription(kind: ActionType, bonded: int, maxValue: int): (d: Option<Description>)
    ensures d.Some? <==> kind in DelegateActions
  {
    match kind
    case BondNominate =>
      Some(Description("delegation-detail-substrate.delegate.bond-nominate_text", [("maxDelegation", maxValue)]))
    case Nominate =>
      Some(Description("delegation-detail-substrate.delegate.nominate_text", [("bonded", bonded)]))
    case BondExtra =>
      Some(Description("delegation-detail-substrate.delegate.bond-extra_text", [("bonded", bonded), ("maxDelegation", maxValue)]))
    case ChangeNomination =>
      Some(Description("delegation-detail-substrate.delegate.change-nomination_text", [("bonded", bonded)]))
    case _ => None
  }

  /** The delegate action: the highest-priority available delegate kind, built
      only when the delegable maximum strictly exceeds the existential deposit.
      Its form value is the maximum when the action takes a value argument and
      the active bond otherwise; reading the active bond of a nominator without
      staking details fails (a TypeError in the original). */
  function CreateDelegateAction(
    stakingDetails: Option<StakingDetails>,
    available: seq<DelegatorAction>,
    validators: seq<string>,
    maxValue: int,
    existentialDeposit: int): (r: Result<Option<Action>>)
    ensures r.Ok? ==>
      (r.value.Some? <==> (exists a :: a in available && a.kind in DelegateActions) && maxValue > existentialDeposit)
    ensures r.Err? <==>
      && SelectByPriority(available, DelegateActions).Some?
      && maxValue > existentialDeposit
      && ValueArgument !in SelectByPriority(available, DelegateActions).value.args
      && stakingDetails.None?
    ensures r.Ok? && r.value.Some? ==>
      var chosen := SelectByPriority(available, DelegateActions).value;
      && r.value.value.kind == chosen.kind
      && r.value.value.labelKey == Some("delegation-detail-substrate.delegate.label")
      && r.value.value.description.Some?
      && r.value.value.amountInput == (ValueArgument in chosen.args)
      && r.value.value.form == Some(DelegateForm(validators,
           if ValueArgument in chosen.args then maxValue else stakingDetails.value.active))
  {
    var action := SelectByPriority(available, DelegateActions);
    if action.Some? && maxValue > existentialDeposit then
      var takesValue := ValueArgument in action.value.args;
      if !takesValue && stakingDetails.None? then
        Err("Cannot read property 'active' of null")
      else
        var bonded := if stakingDetails.Some? then stakingDetails.value.active else 0;
        var formValue := if takesValue then maxValue else stakingDetails.value.active;
        Ok(Some(Action(
          action.value.kind,
          Some("delegation-detail-substrate.delegate.label"),
          DelegateDescription(action.value.kind, bonded, maxValue),
          None,
          None,
          Some(DelegateForm(validators, formValue)),
          takesValue)))
    else
      Ok(None)
  }

  lemma DepositEqualToMaximumBlocksDelegation(available: seq<DelegatorAction>, sd: StakingDetails, validators: seq<string>, v: int)
    ensures CreateDelegateAction(Some(sd), available, validators, v, v) == Ok(None)
  {
  }

  function UndelegateLabel(kind: ActionType): (key: Option<string>)
    ensures key.Some? <==> kind in UndelegateActions
  {
    match kind
    case CancelNomination => Some("delegation-detail-substrate.undelegate.label")
    case Unbond => Some("delegation-detail-substrate.unbond.label")
    case _ => None
  }

  /** The undelegate action: CANCEL_NOMINATION before UNBOND, and none without staking details. */
  function CreateUndelegateAction(stakingDetails: Option<StakingDetails>, available: seq<DelegatorAction>): (r: Option<Action>)
    ensures r.Some? <==> stakingDetails.Some? && exists a :: a in available && a.kind in UndelegateActions
    ensures r.Some? ==>
      && r.value.kind in UndelegateActions
      && (r.value.kind == Unbond <==> forall a :: a in available ==> a.kind != CancelNomination)
      && r.value.labelKey.Some?
      && r.value.labelKey == UndelegateLabel(r.value.kind)
      && r.value.form == Some(UndelegateForm(stakingDetails.value.active))
  {
    var action := SelectByPriority(available, UndelegateActions);
    if action.Some? && stakingDetails.Some? then
      assert PriorityOf(UndelegateActions, CancelNomination) == 0;
      Some(Action(
        action.value.kind,
        UndelegateLabel(action.value.kind),
        None,
        None,
        Some("close-outline"),
        Some(UndelegateForm(stakingDetails.value.active)),
        false))
    else
      None
  }

  /** An action that is neither a delegate nor an undelegate action. Only
      WITHDRAW_UNBONDED has labels; any other kind passes through bare. */
  function CreateExtraAction(stakingDetails: Option<StakingDetails>, a: DelegatorAction): (r: Action)
    ensures r.kind == a.kind && r.form.None?
    ensures r.labelKey.Some? <==> a.kind == WithdrawUnbonded
  {
    if a.kind == WithdrawUnbonded then
      Action(
        a.kind,
        Some("delegation-detail-substrate.withdraw-unbonded.label"),
        Some(if stakingDetails.Some?
             then Description("delegation-detail-substrate.withdraw-unbonded.text-full", [("unlocked", stakingDetails.value.unlocked)])
             else Description("delegation-detail-substrate.withdraw-unbonded.text-short", [])),
        Some("delegation-detail-substrate.withdraw-unbonded.button"),
        None,
        None,
        false)
    else
      Action(a.kind, None, None, None, None, None, false)
  }

  function CreateDelegatorExtraActions(stakingDetails: Option<StakingDetails>, available: seq<DelegatorAction>): (r: seq<Action>)
    ensures var extras := Filter(available, IsExtra);
      |r| == |extras| && forall i :: 0 <= i < |r| ==> r[i] == CreateExtraAction(stakingDetails, extras[i])
  {
    var extras := Filter(available, IsExtra);
    seq(|extras|, i requires 0 <= i < |extras| => CreateExtraAction(stakingDetails, extras[i]))
  }

  function OptionToSeq<T>(o: Option<T>): (s: seq<T>)
    ensures |s| <= 1
    ensures o.Some? ==> s == [o.value]
    ensures o.None? ==> s == []
  {
    if o.Some? then [o.value] else []
  }

  function Kinds(actions: seq<Action>): (ks: seq<ActionType>)
    ensures |ks| == |actions| && forall i :: 0 <= i < |ks| ==> ks[i] == actions[i].kind
  {
    seq(|actions|, i requires 0 <= i < |actions| => actions[i].kind)
  }

  /** The kinds of the node's raw available actions (`Kinds` is over built actions). */
  function RawKinds(actions: seq<DelegatorAction>): seq<ActionType> {
    seq(|actions|, i requires 0 <= i < |actions| => actions[i].kind)
  }

  // ---------------------------------------------------------------------------
  // Delegator display details

  /** The lock the ascending stable sort by `expectedUnlock` puts first: the
      earliest unlock, and among equal unlocks the first in list order. */
  function NextUnlocking(locked: seq<Lock>): (l: Lock)
    requires locked != []
    ensures l in locked
    ensures forall x :: x in locked ==> l.expectedUnlock <= x.expectedUnlock
    ensures exists i ::
      && 0 <= i < |locked|
      && locked[i] == l
      && (forall j :: 0 <= j < i ==> locked[j].expectedUnlock > l.expectedUnlock)
  {
    if |locked| == 1 then locked[0]
    else
      var rest := NextUnlocking(locked[1..]);
      HeadOrTail(locked);
      if rest.expectedUnlock < locked[0].expectedUnlock then
        var i :| 0 <= i < |locked[1..]| && locked[1..][i] == rest &&
          forall j :: 0 <= j < i ==> locked[1..][j].expectedUnlock > rest.expectedUnlock;
        assert locked[i + 1] == rest;
        rest
      else
        locked[0]
  }

  lemma HeadOrTail(locked: seq<Lock>)
    requires locked != []
    ensures forall x :: x in locked <==> x == locked[0] || x in locked[1..]
  {
    assert locked == [locked[0]] + locked[1..];
  }

  const BondedLabel := "delegation-detail-substrate.bonded_label"
  const DelegatedLabel := "delegation-detail-substrate.delegated_label"
  const LockedLabel := "delegation-detail-substrate.locked_label"
  const WithdrawReadyLabel := "delegation-detail-substrate.withdraw-ready_label"

  /** Bonded-state items: a fully active bond, else the next unlocking amount
      and its date, else a withdrawable amount, else nothing. */
  function CreateBondedDetails(sd: StakingDetails): (items: seq<DisplayItem>)
    ensures sd.total == sd.active ==>
      items == [IconText(None, "people-outline", Amount(sd.total as real),
                         if sd.status == "nominating" then DelegatedLabel else BondedLabel)]
    ensures sd.total != sd.active && sd.locked != [] ==>
      var next := NextUnlocking(sd.locked);
      items == [IconText(None, "people-outline", Amount(next.value as real), LockedLabel),
                IconText(None, "alarm-outline", FromNowWithDate(next.expectedUnlock), WithdrawReadyLabel)]
    ensures sd.total != sd.active && sd.locked == [] ==>
      items == if sd.unlocked > 0
               then [IconText(None, "people-outline", Amount(sd.unlocked as real), WithdrawReadyLabel)]
               else []
  {
    if sd.total == sd.active then
      [IconText(None, "people-outline", Amount(sd.total as real),
                if sd.status == "nominating" then DelegatedLabel else BondedLabel)]
    else if |sd.locked| > 0 then
      var next := NextUnlocking(sd.locked);
      [IconText(None, "people-outline", Amount(next.value as real), LockedLabel),
       IconText(None, "alarm-outline", FromNowWithDate(next.expectedUnlock), WithdrawReadyLabel)]
    else if sd.unlocked > 0 then
      [IconText(None, "people-outline", Amount(sd.unlocked as real), WithdrawReadyLabel)]
    else
      []
  }

  /** The three bonded-state displays exclude each other. */
  lemma BondedDetailsExclusive(sd: StakingDetails)
    ensures |CreateBondedDetails(sd)| <= 2
    ensures (exists it :: it in CreateBondedDetails(sd) && it.description in {BondedLabel, DelegatedLabel})
            ==> |CreateBondedDetails(sd)| == 1
    ensures (exists it :: it in CreateBondedDetails(sd) && it.description == LockedLabel)
            ==> sd.total != sd.active && |CreateBondedDetails(sd)| == 2
  {
  }

  function CreateNominationDetails(sd: StakingDetails): (items: seq<DisplayItem>)
    ensures |items| == 1 && items[0].text == FromNowWithDate(sd.nextEra)
    ensures items[0].description ==
      if sd.status == "nominating_inactive" then "delegation-detail-substrate.becomes-active_label"
      else "delegation-detail-substrate.next-payout_label"
  {
    [IconText(None, "sync-outline", FromNowWithDate(sd.nextEra),
              if sd.status == "nominating_inactive" then "delegation-detail-substrate.becomes-active_label"
              else "delegation-detail-substrate.next-payout_label")]
  }

  function CreateDelegatorDisplayDetails(nd: NominatorDetails): (items: seq<DisplayItem>)
    ensures nd.stakingDetails.None? ==> items == []
    ensures nd.stakingDetails.Some? ==>
      items == CreateBondedDetails(nd.stakingDetails.value)
               + (if |nd.delegatees| > 0 then CreateNominationDetails(nd.stakingDetails.value) else [])
  {
    if nd.stakingDetails.Some? then
      var sd := nd.stakingDetails.value;
      CreateBondedDetails(sd) + (if |nd.delegatees| > 0 then CreateNominationDetails(sd) else [])
    else
      []
  }

  // ---------------------------------------------------------------------------
  // Nominator details

  /** The delegator half of the result: supported actions only; the delegate
      action followed by the extra actions, and the undelegate action alone. */
  function GetExtraNominatorDetails(nd: NominatorDetails, validators: seq<string>, maxValue: int, existentialDeposit: int)
    : (r: Result<DelegatorDetails>)
    ensures var available := Filter(nd.availableActions, IsSupported);
      r.Ok? <==> CreateDelegateAction(nd.stakingDetails, available, validators, maxValue, existentialDeposit).Ok?
    ensures r.Ok? ==>
      var available := Filter(nd.availableActions, IsSupported);
      var delegate := CreateDelegateAction(nd.stakingDetails, available, validators, maxValue, existentialDeposit).value;
      && r.value.mainActions == OptionToSeq(delegate) + CreateDelegatorExtraActions(nd.stakingDetails, available)
      && r.value.secondaryActions == OptionToSeq(CreateUndelegateAction(nd.stakingDetails, available))
      && r.value.displayDetails == CreateDelegatorDisplayDetails(nd)
      && r.value.nominator == nd
  {
    var available := Filter(nd.availableActions, IsSupported);
    var delegate :- CreateDelegateAction(nd.stakingDetails, available, validators, maxValue, existentialDeposit);
    var undelegate := CreateUndelegateAction(nd.stakingDetails, available);
    var extras := CreateDelegatorExtraActions(nd.stakingDetails, available);
    Ok(DelegatorDetails(nd, OptionToSeq(delegate) + extras, OptionToSeq(undelegate), CreateDelegatorDisplayDetails(nd)))
  }

  /** Extra actions built from the supported actions carry exactly the raw
      list's WITHDRAW_UNBONDED kinds, in source order. */
  lemma ExtraActionKinds(sd: Option<StakingDetails>, raw: seq<DelegatorAction>)
    ensures Kinds(CreateDelegatorExtraActions(sd, Filter(raw, IsSupported))) == RawKinds(Filter(raw, IsWithdraw))
  {
    ExtraActionsAreWithdrawals(raw);
  }

  /** The kinds of the main actions are the delegate kind (when the delegate
      action is built) followed by the raw list's WITHDRAW_UNBONDED kinds, in
      source order. */
  lemma MainActionKinds(nd: NominatorDetails, validators: seq<string>, maxValue: int, ed: int)
    requires GetExtraNominatorDetails(nd, validators, maxValue, ed).Ok?
    ensures var available := Filter(nd.availableActions, IsSupported);
      var delegate := CreateDelegateAction(nd.stakingDetails, available, validators, maxValue, ed).value;
      Kinds(GetExtraNominatorDetails(nd, validators, maxValue, ed).value.mainActions) ==
        (if delegate.Some? then [delegate.value.kind] else []) + RawKinds(Filter(nd.availableActions, IsWithdraw))
  {
    var available := Filter(nd.availableActions, IsSupported);
    var delegate := CreateDelegateAction(nd.stakingDetails, available, validators, maxValue, ed).value;
    var extras := CreateDelegatorExtraActions(nd.stakingDetails, available);
    var main := GetExtraNominatorDetails(nd, validators, maxValue, ed).value.mainActions;
    assert main == OptionToSeq(delegate) + extras;
    ExtraActionKinds(nd.stakingDetails, nd.availableActions);
    assert Kinds(extras) == RawKinds(Filter(nd.availableActions, IsWithdraw));
    assert Kinds(OptionToSeq(delegate)) == if delegate.Some? then [delegate.value.kind] else [];
    KindsAppend(OptionToSeq(delegate), extras);
  }

  lemma KindsAppend(a: seq<Action>, b: seq<Action>)
    ensures Kinds(a + b) == Kinds(a) + Kinds(b)
  {
  }

  /** At most one secondary action, and it is of an undelegate kind. */
  lemma SecondaryActionsShape(nd: NominatorDetails, validators: seq<string>, maxValue: int, ed: int)
    requires GetExtraNominatorDetails(nd, validators, maxValue, ed).Ok?
    ensures var d := GetExtraNominatorDetails(nd, validators, maxValue, ed).value;
      && |d.secondaryActions| <= 1
      && (forall a :: a in d.secondaryActions ==> a.kind in UndelegateActions)
  {
  }

  // ---------------------------------------------------------------------------
  // Reward history

  const MaxDisplayedRewards: nat := 5

  /** The reward list: none without delegatees or without rewards, otherwise
      the first five rewards in the order the chain returned them. A nominator
      with delegatees but no staking details makes the original throw. */
  function CreateDelegatorDisplayRewards(nd: NominatorDetails): (r: Result<Option<RewardList>>)
    ensures |nd.delegatees| == 0 ==> r == Ok(None)
    ensures |nd.delegatees| > 0 ==> (r.Err? <==> nd.stakingDetails.None?)
    ensures |nd.delegatees| > 0 && nd.stakingDetails.Some? ==>
      (r.value.None? <==> nd.stakingDetails.value.rewards == [])
    ensures r.Ok? && r.value.Some? ==>
      var rewards := nd.stakingDetails.value.rewards;
      var rows := r.value.value.rewards;
      && |rows| == (if |rewards| < MaxDisplayedRewards then |rewards| else MaxDisplayedRewards)
      && forall i :: 0 <= i < |rows| ==>
           rows[i] == RewardRow(rewards[i].eraIndex, rewards[i].amount, rewards[i].timestamp)
  {
    if |nd.delegatees| == 0 then Ok(None)
    else if nd.stakingDetails.None? then Err("Cannot read property 'rewards' of null")
    else if |nd.stakingDetails.value.rewards| == 0 then Ok(None)
    else
      var rewards := nd.stakingDetails.value.rewards;
      var shown := if |rewards| < MaxDisplayedRewards then rewards else rewards[..MaxDisplayedRewards];
      Ok(Some(RewardList(
        seq(|shown|, i requires 0 <= i < |shown| => RewardRow(shown[i].eraIndex, shown[i].amount, shown[i].timestamp)),
        "delegation-detail-substrate.rewards.index-col_label",
        "delegation-detail-substrate.rewards.amount-col_label",
        "delegation-detail-substrate.rewards.payout-col_label")))
  }

  // ---------------------------------------------------------------------------
  // Delegatee details

  /** Expected reward for `stake`: the delegatee's last era reward less its
      commission, shared in proportion to stake / (total stake + stake). An
      absent total stake or a zero denominator gives NaN or Infinity. */
  function ExpectedReward(commission: real, lastEraReward: real, totalStakingBalance: Option<int>, stake: real): (r: Quotient)
    ensures totalStakingBalance.None? ==> r.NotFinite?
    ensures totalStakingBalance.Some? ==>
      var totalStake := totalStakingBalance.value as real + stake;
      && (r.Exact? <==> totalStake != 0.0)
      && (r.Exact? ==> r.value * totalStake == (1.0 - commission) * lastEraReward * stake)
  {
    match totalStakingBalance
    case None => NotFinite
    case Some(t) =>
      var totalStake := t as real + stake;
      var share := Divide(stake, totalStake);
      var r := Scale(share, (1.0 - commission) * lastEraReward);
      assert r.Exact? ==> r.value * totalStake == (1.0 - commission) * lastEraReward * (share.value * totalStake);
      r
  }

  lemma ExpectedRewardExample()
    ensures ExpectedReward(0.1, 1000.0, Some(9000), 1000.0) == Exact(90.0)
  {
    var r := ExpectedReward(0.1, 1000.0, Some(9000), 1000.0);
    assert r.value * 10000.0 == 900000.0;
  }

  /** With a non-negative total stake and commission at most 1, the delegator
      never expects more than the whole reward net of commission. */
  lemma ExpectedRewardBounded(commission: real, lastEraReward: real, totalStakingBalance: nat, stake: real)
    requires 0.0 <= commission <= 1.0 && 0.0 <= lastEraReward && 0.0 < stake
    ensures var r := ExpectedReward(commission, lastEraReward, Some(totalStakingBalance), stake);
      r.Exact? && 0.0 <= r.value <= (1.0 - commission) * lastEraReward
  {
    var pool := (1.0 - commission) * lastEraReward;
    var totalStake := totalStakingBalance as real + stake;
    var share := stake / totalStake;
    ShareAtMostWhole(stake, totalStake);
    NetRewardNonNegative(commission, lastEraReward);
    ScaledShareBounded(share, pool);
    assert ExpectedReward(commission, lastEraReward, Some(totalStakingBalance), stake) == Exact(share * pool);
  }

  /** A part over a whole that contains it lies in [0, 1]. */
  lemma ShareAtMostWhole(part: real, whole: real)
    requires 0.0 < part <= whole
    ensures 0.0 <= part / whole <= 1.0
  {
    var share := part / whole;
    assert share * whole == part;
    if share > 1.0 {
      ProductGrows(share, 1.0, whole);
    }
  }

  lemma NetRewardNonNegative(commission: real, lastEraReward: real)
    requires commission <= 1.0 && 0.0 <= lastEraReward
    ensures 0.0 <= (1.0 - commission) * lastEraReward
  {
  }

  lemma ScaledShareBounded(share: real, pool: real)
    requires 0.0 <= share <= 1.0 && 0.0 <= pool
    ensures 0.0 <= share * pool <= pool
  {
    assert share * pool <= 1.0 * pool;
  }

  lemma ProductGrows(a: real, b: real, c: real)
    requires a > b && c > 0.0
    ensures a * c > b * c
  {
  }

  const ActiveStatus := "Active"

  /** The first main action of a delegate kind (the reward widget's trigger). */
  function FindDelegateAction(mainActions: seq<Action>): (r: Option<Action>)
    ensures r.Some? <==> exists a :: a in mainActions && a.kind in DelegateActions
    ensures r.Some? ==> r.value in mainActions && r.value.kind in DelegateActions
    ensures r.Some? ==> exists j ::
      && 0 <= j < |mainActions|
      && mainActions[j] == r.value
      && forall i :: 0 <= i < j ==> mainActions[i].kind !in DelegateActions
  {
    if mainActions == [] then None
    else if mainActions[0].kind in DelegateActions then Some(mainActions[0])
    else
      var rest := FindDelegateAction(mainActions[1..]);
      if rest.Some? then
        var j :| && 0 <= j < |mainActions[1..]|
                 && mainActions[1..][j] == rest.value
                 && forall i :: 0 <= i < j ==> mainActions[1..][i].kind !in DelegateActions;
        assert mainActions[j + 1] == rest.value;
        assert forall i :: 1 <= i < j + 1 ==> mainActions[i] == mainActions[1..][i - 1];
        rest
      else
        rest
  }

  /** The four preconditions of the expected-reward widget. */
  predicate ShowExpectedReward(v: ValidatorDetails, mainActions: seq<Action>) {
    && v.lastEraReward.Some?
    && v.commission.Some?
    && v.status == Some(ActiveStatus)
    && FindDelegateAction(mainActions).Some?
    && FindDelegateAction(mainActions).value.form.Some?
  }

  /** The stake the projection starts from: the nominator's total bond, or 0. */
  function InitialStake(sd: Option<StakingDetails>): int {
    if sd.Some? then sd.value.total else 0
  }

  function ExpectedRewardText(q: Quotient): Text {
    if q.Exact? then Amount(q.value) else NotANumber
  }

  function CreateDelegateeDisplayDetails(v: ValidatorDetails, sd: Option<StakingDetails>, mainActions: seq<Action>)
    : (items: seq<DisplayItem>)
    ensures 1 <= |items| <= 2
    ensures items[0].description == "delegation-detail-substrate.commission_label"
    ensures items[0].text == if v.commission.Some? then Percent(v.commission.value) else Literal("-")
    ensures |items| == 2 <==> ShowExpectedReward(v, mainActions)
    ensures |items| == 2 ==>
      items[1].text == ExpectedRewardText(ExpectedReward(v.commission.value, v.lastEraReward.value as real,
                                                        v.totalStakingBalance, InitialStake(sd) as real))
  {
    var commissionItem := IconText(None, "logo-usd",
      if v.commission.Some? then Percent(v.commission.value) else Literal("-"),
      "delegation-detail-substrate.commission_label");
    if ShowExpectedReward(v, mainActions) then
      var reward := ExpectedReward(v.commission.value, v.lastEraReward.value as real, v.totalStakingBalance, InitialStake(sd) as real);
      [commissionItem, IconText(None, "logo-usd", ExpectedRewardText(reward), "delegation-detail-substrate.expected-reward_label")]
    else
      [commissionItem]
  }

  /** `usageDetails` of a validator: own stash over total stake, each absent value read as 0. */
  function ValidatorUsage(v: ValidatorDetails): (u: UsageDetails)
    ensures u.current == v.ownStash.GetOr(0) as real
    ensures u.total == v.totalStakingBalance.GetOr(0) as real
    ensures u.usage.Exact? <==> u.total != 0.0
    ensures u.usage.Exact? ==> u.usage.value * u.total == u.current
  {
    var current := v.ownStash.GetOr(0) as real;
    var total := v.totalStakingBalance.GetOr(0) as real;
    UsageDetails(Divide(current, total), current, total)
  }

  const UnknownValidatorStatus: string := "delegation-detail-substrate.status.unknown"

  /** A validator's record spread into its result: an absent or empty name is
      "", an absent or empty status reads as unknown (`||` treats "" as false). */
  function ValidatorResult(v: ValidatorDetails, sd: Option<StakingDetails>, mainActions: seq<Action>): (d: DelegateeDetails)
    ensures d.validator == v
    ensures d.name == v.name.GetOr("")
    ensures v.status.Some? && v.status.value != "" ==> d.status == v.status.value
    ensures v.status.None? || v.status.value == "" ==> d.status == UnknownValidatorStatus
    ensures d.usageDetails == ValidatorUsage(v)
    ensures d.displayDetails == CreateDelegateeDisplayDetails(v, sd, mainActions)
  {
    DelegateeDetails(
      v,
      v.name.GetOr(""),
      if v.status.None? || v.status.value == "" then UnknownValidatorStatus else v.status.value,
      ValidatorUsage(v),
      CreateDelegateeDisplayDetails(v, sd, mainActions))
  }

  /** One result per requested validator, in order; any failed fetch fails the whole. */
  function GetExtraValidatorsDetails(
    fetch: string -> Result<ValidatorDetails>,
    validators: seq<string>,
    sd: Option<StakingDetails>,
    mainActions: seq<Action>): (r: Result<seq<DelegateeDetails>>)
    ensures r.Ok? <==> forall v :: v in validators ==> fetch(v).Ok?
    ensures r.Ok? ==>
      && |r.value| == |validators|
      && (forall i :: 0 <= i < |validators| ==>
            fetch(validators[i]).Ok? && r.value[i] == ValidatorResult(fetch(validators[i]).value, sd, mainActions))
  {
    FetchAll(fetch, validators, d => ValidatorResult(d, sd, mainActions))
  }

  /** The `Promise.all` over the validators: every fetch must succeed, and
      each fetched record is turned into its result by `build`. */
  function FetchAll<T>(fetch: string -> Result<ValidatorDetails>, validators: seq<string>, build: ValidatorDetails -> T)
    : (r: Result<seq<T>>)
    ensures r.Ok? <==> forall v :: v in validators ==> fetch(v).Ok?
    ensures r.Ok? ==>
      && |r.value| == |validators|
      && (forall i :: 0 <= i < |validators| ==> fetch(validators[i]).Ok? && r.value[i] == build(fetch(validators[i]).value))
  {
    if validators == [] then Ok([])
    else
      var first :- fetch(validators[0]);
      var rest :- FetchAll(fetch, validators[1..], build);
      assert forall v :: v in validators ==> v == validators[0] || v in validators[1..];
      var results := [build(first)] + rest;
      assert forall i :: 0 < i < |validators| ==> results[i] == rest[i - 1] && validators[i] == validators[1..][i - 1];
      Ok(results)
  }

  /** An advisory alert while an era election is open. */
  function GetAlerts(status: ElectionStatus): (alerts: Option<seq<Alert>>)
    ensures alerts.Some? <==> status == Open
    ensures alerts.Some? ==> |alerts.value| == 1
  {
    if status == Open then
      Some([Alert("delegation-detail-substrate.alert.election-open.title",
                  "delegation-detail-substrate.alert.election-open.description",
                  "alert-circle-outline",
                  "warning")])
    else
      None
  }

  // ---------------------------------------------------------------------------
  // Entry points

  /** The full delegation details of one nominator and its requested validators. */
  function GetExtraDelegationDetailsFromAddress(node: Node, delegatees: seq<string>): (r: Result<seq<DelegationDetails>>)
    ensures r.Ok? <==>
      && node.nominatorDetails.Ok?
      && node.maxDelegationValue.Ok?
      && node.existentialDeposit.Ok?
      && GetExtraNominatorDetails(node.nominatorDetails.value, delegatees,
                                  node.maxDelegationValue.value, node.existentialDeposit.value).Ok?
      && (forall v :: v in delegatees ==> node.validatorDetails(v).Ok?)
      && node.electionStatus.Ok?
    ensures r.Ok? ==>
      var nd := node.nominatorDetails.value;
      var delegator := GetExtraNominatorDetails(nd, delegatees, node.maxDelegationValue.value, node.existentialDeposit.value).value;
      && |r.value| == 1
      && r.value[0].delegator == delegator
      && |r.value[0].delegatees| == |delegatees|
      && (forall i :: 0 <= i < |delegatees| ==>
            r.value[0].delegatees[i] == ValidatorResult(node.validatorDetails(delegatees[i]).value, nd.stakingDetails, delegator.mainActions))
      && r.value[0].alerts == GetAlerts(node.electionStatus.value)
  {
    var nd :- node.nominatorDetails;
    var maxValue :- node.maxDelegationValue;
    var deposit :- node.existentialDeposit;
    var delegator :- GetExtraNominatorDetails(nd, delegatees, maxValue, deposit);
    var validators :- GetExtraValidatorsDetails(node.validatorDetails, delegatees, nd.stakingDetails, delegator.mainActions);
    var status :- node.electionStatus;
    Ok([DelegationDetails(GetAlerts(status), delegator, validators)])
  }

  function GetRewardDisplayDetails(node: Node): (r: Result<Option<RewardList>>)
    ensures node.nominatorDetails.Err? ==> r.Err?
    ensures node.nominatorDetails.Ok? ==> r == CreateDelegatorDisplayRewards(node.nominatorDetails.value)
  {
    var nd :- node.nominatorDetails;
    CreateDelegatorDisplayRewards(nd)
  }
}
