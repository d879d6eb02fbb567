/** What a request's optional fields add up to, stated mode by mode. */
module Requests {
  import opened Types
  import opened ReplicaModel

  predicate HasExplicitHold(input: Input) {
    input.holdAmount.Some? && input.holdExpires.Some?
  }

  predicate NoHoldFields(input: Input) {
    input.holdAmount.None? && input.holdExpires.None?
  }

  predicate Plain(input: Input) {
    input.settleReservation.None? && input.releaseReservation.None?
  }

  /** A settle is a debit that names one reservation and nothing else. */
  predicate MeansSettle(input: Input, id: string) {
    && input.settleReservation == Some(id) && input.releaseReservation.None?
    && NoHoldFields(input) && !input.skipHold && input.amount < 0
  }

  /** A release moves no money, names one reservation and nothing else. */
  predicate MeansRelease(input: Input, id: string) {
    && input.releaseReservation == Some(id) && input.settleReservation.None?
    && NoHoldFields(input) && !input.skipHold && input.amount == 0
  }

  /** A hold the caller sized: positive, and expiring in the future. */
  predicate MeansSizedHold(input: Input, now: nat) {
    && Plain(input) && HasExplicitHold(input) && !input.skipHold
    && input.holdAmount.value > 0 && input.holdExpires.value > now
  }

  /** Every request means at most one mode, and is refused exactly when it means none. */
  lemma ModeIffMeant(input: Input, now: nat)
    ensures forall id :: ModeOf(input, now) == Selected(Settle(id)) <==> MeansSettle(input, id)
    ensures forall id :: ModeOf(input, now) == Selected(Release(id)) <==> MeansRelease(input, id)
    ensures ModeOf(input, now) == Selected(Reserve) <==> MeansSizedHold(input, now) && input.amount == 0
    ensures forall h :: ModeOf(input, now) == Selected(Charge(Some(h))) <==>
      || (MeansSizedHold(input, now) && input.amount < 0 && h == (input.holdAmount.value, input.holdExpires.value))
      || (Plain(input) && NoHoldFields(input) && input.skipHold && h == (0, 0))
    ensures ModeOf(input, now) == Selected(Charge(None)) <==> Plain(input) && NoHoldFields(input) && !input.skipHold
    ensures ModeOf(input, now).Rejected? <==>
      && (forall id :: !MeansSettle(input, id) && !MeansRelease(input, id))
      && !(MeansSizedHold(input, now) && input.amount <= 0)
      && !(Plain(input) && NoHoldFields(input))
  {
  }

  /** Every refusal names a fault the request has. */
  lemma RefusedForAReason(input: Input, now: nat)
    requires ModeOf(input, now).Rejected?
    ensures match ModeOf(input, now).reason
      case SettleAndRelease => input.settleReservation.Some? && input.releaseReservation.Some?
      case HoldFieldsNotPaired => !HasExplicitHold(input) && !NoHoldFields(input)
      case SkipHoldWithReservation => input.skipHold && !Plain(input)
      case SkipHoldWithHold => input.skipHold && HasExplicitHold(input)
      case SettleNeedsDebit => input.settleReservation.Some? && input.amount >= 0
      case SettleWithHold => input.settleReservation.Some? && HasExplicitHold(input)
      case ReleaseNeedsZero => input.releaseReservation.Some? && input.amount != 0
      case ReleaseWithHold => input.releaseReservation.Some? && HasExplicitHold(input)
      case ZeroHold => input.holdAmount == Some(0)
      case HoldInThePast => input.holdExpires.Some? && input.holdExpires.value <= now
      case CreditWithHold => HasExplicitHold(input) && input.amount > 0
      case TransferOverflows => false
  {
  }
}
