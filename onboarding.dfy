/**
 * The onboarding screens of `Cards.tsx` that carry logic: the ordered list
 * of steps the cursor selects from, and the recovery-phrase confirmation test.
 */
module Onboarding {
  import opened Wrappers
  import opened Text

  /** The five onboarding cards, one constructor per card component. */
  datatype Card =
    | FirstCard
    | DisplayRecoveryPhraseCard
    | ConfirmRecoveryPhraseCard
    | WalletDetailsCard
    | RestoreWalletCard

  /** `cardsArr`: the steps in the order the cursor walks them. */
  const CardsArr: seq<Card> := [
    FirstCard,
    DisplayRecoveryPhraseCard,
    ConfirmRecoveryPhraseCard,
    WalletDetailsCard,
    RestoreWalletCard
  ]

  /** Where each card sits in the step list, stated card by card. */
  function Position(card: Card): nat
  {
    match card
    case FirstCard => 0
    case DisplayRecoveryPhraseCard => 1
    case ConfirmRecoveryPhraseCard => 2
    case WalletDetailsCard => 3
    case RestoreWalletCard => 4
  }

  /**
   * The entry of `cardsArr` at a cursor position, or nothing (JavaScript's
   * `undefined`) outside the list. This is the step selection the list is
   * laid out for; the page component does not currently index `cardsArr`.
   */
  function CardAt(currCard: int): (r: Option<Card>)
    ensures r.Some? <==> 0 <= currCard < 5
    ensures r.Some? ==> Position(r.value) == currCard
  {
    if 0 <= currCard < |CardsArr| then Some(CardsArr[currCard]) else None
  }

  /** Every card appears in the step list exactly once, at its position. */
  lemma CardsArrOrder(card: Card)
    ensures |CardsArr| == 5
    ensures CardAt(Position(card)) == Some(card)
    ensures forall i :: 0 <= i < |CardsArr| && CardsArr[i] == card ==> i == Position(card)
  {
  }

  /**
   * The test of `handleConfirm`: the entered text, split on spaces and joined
   * again, equals the displayed phrase. It passes exactly when the entered
   * text is the displayed phrase.
   */
  function PhraseMatches(enteredPhrase: string, recoveryPhrase: seq<string>): (ok: bool)
    ensures ok <==> enteredPhrase == Join(recoveryPhrase)
  {
    JoinSplit(enteredPhrase);
    Join(Split(enteredPhrase)) == Join(recoveryPhrase)
  }
}
