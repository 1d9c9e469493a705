/** Accounts and the whole chain state as values, with the totals every execution must account for. */
module World {
  import opened Bytes
  import opened Sums
  import opened SlotStorage

  /** An account without its identity. */
  datatype Account = Account(nonce: Word, balance: Word, code: seq<Byte>, slots: Slots)

  /** The abstract value of a state database. */
  type State = map<Address, Account>

  const NEW_ACCOUNT := Account(0, 0, [], map[])

  // ---------------------------------------------------------------------------------------------
  // Operations on values
  // ---------------------------------------------------------------------------------------------

  function At(w: State, a: Address): Account {
    if a in w then w[a] else NEW_ACCOUNT
  }

  /** `get_or_create_account` for its effect only. */
  function Touch(w: State, a: Address): State {
    w[a := At(w, a)]
  }

  function SetBalance(w: State, a: Address, value: int): State {
    w[a := At(w, a).(balance := Wrap(value))]
  }

  function AddBalance(w: State, a: Address, value: int): State {
    SetBalance(w, a, At(w, a).balance + value)
  }

  /** Whether the balance sufficed, and the state afterwards. */
  function SubtractBalance(w: State, a: Address, value: nat): (bool, State) {
    var balance := At(w, a).balance;
    if balance < value then (false, w) else (true, SetBalance(w, a, balance - value))
  }

  /** Moves `value`; moving nothing still creates the recipient. */
  function Transfer(w: State, sender: Address, recipient: Address, value: nat): (bool, State) {
    if value == 0 then (true, Touch(w, recipient))
    else
      var (paid, w1) := SubtractBalance(w, sender, value);
      if paid then (true, AddBalance(w1, recipient, value)) else (false, w)
  }

  function SetNonce(w: State, a: Address, nonce: Word): State {
    w[a := At(w, a).(nonce := nonce)]
  }

  function IncrementNonce(w: State, a: Address): State {
    SetNonce(w, a, Wrap(At(w, a).nonce + 1))
  }

  function SetCode(w: State, a: Address, code: seq<Byte>): State {
    w[a := At(w, a).(code := code)]
  }

  predicate CanDeployTo(w: State, a: Address) {
    At(w, a).nonce == 0 && At(w, a).code == []
  }

  function GetStorage(w: State, a: Address, key: Word): Word {
    SlotAt(At(w, a).slots, key).current
  }

  function SetStorage(w: State, a: Address, key: Word, value: Word): State {
    w[a := At(w, a).(slots := WriteSlot(At(w, a).slots, key, value))]
  }

  predicate IsEmpty(a: Account) {
    a.nonce == 0 && a.balance == 0 && a.code == [] && forall k :: k in a.slots ==> a.slots[k].current == 0
  }

  function CommitStorages(w: State): State {
    map a | a in w :: w[a].(slots := CommitSlots(w[a].slots))
  }

  function RemoveEmptyAccounts(w: State): State {
    map a | a in w && !IsEmpty(w[a]) :: w[a]
  }

  /** End of a transaction: storage is committed and empty accounts disappear. */
  function Commit(w: State): State {
    RemoveEmptyAccounts(CommitStorages(w))
  }

  // ---------------------------------------------------------------------------------------------
  // Total ether and outstanding storage refunds
  // ---------------------------------------------------------------------------------------------

  function BalanceOf(a: Account): int {
    a.balance
  }

  /** The refunds later writes to this account's slots may take back. */
  ghost function DebtOf(a: Account): int {
    Sum(a.slots, Reclaimable)
  }

  ghost function TotalBalance(w: State): int {
    Sum(w, BalanceOf)
  }

  ghost function TotalDebt(w: State): int {
    Sum(w, DebtOf)
  }

  /** What every piece of EVM code may do to the state: keep the total of all balances, and earn at least as much
      refund as the outstanding debt grew. */
  ghost predicate Balanced(w: State, w': State, refund: int) {
    && (TotalBalance(w) < MODULUS ==> TotalBalance(w') == TotalBalance(w))
    && refund >= TotalDebt(w') - TotalDebt(w)
  }

  lemma BalancedTrans(w: State, w1: State, w2: State, r1: int, r2: int)
    requires Balanced(w, w1, r1) && Balanced(w1, w2, r2)
    ensures Balanced(w, w2, r1 + r2)
  {
  }

  lemma NewAccountIsNothing()
    ensures BalanceOf(NEW_ACCOUNT) == 0 && DebtOf(NEW_ACCOUNT) == 0
  {
  }

  /** Replacing one account changes the totals by the difference of the two account values. */
  lemma Replace(w: State, a: Address, v: Account)
    ensures TotalBalance(w[a := v]) == TotalBalance(w) - At(w, a).balance + v.balance
    ensures TotalDebt(w[a := v]) == TotalDebt(w) - DebtOf(At(w, a)) + DebtOf(v)
  {
    NewAccountIsNothing();
    SumUpdate(w, BalanceOf, a, v);
    SumUpdate(w, DebtOf, a, v);
  }

  lemma BalanceBelowTotal(w: State, a: Address, b: Address)
    ensures At(w, a).balance <= TotalBalance(w)
    ensures a != b ==> At(w, a).balance + At(w, b).balance <= TotalBalance(w)
    ensures TotalBalance(w) >= 0
  {
    SumNonNegative(w, BalanceOf);
    if a in w {
      SumBounds(w, BalanceOf, a, b);
    }
    if b in w {
      SumBounds(w, BalanceOf, b, a);
    }
  }

  lemma DebtNonNegative(w: State)
    ensures TotalDebt(w) >= 0
  {
    forall a | a in w
      ensures DebtOf(w[a]) >= 0
    {
      SumNonNegative(w[a].slots, Reclaimable);
    }
    SumNonNegative(w, DebtOf);
  }

  /** No slot is cleared but still remembers a nonzero original: true of every committed or newly built state. */
  predicate NoPendingClears(w: State) {
    forall a :: a in w ==> forall k :: k in w[a].slots ==> Reclaimable(w[a].slots[k]) == 0
  }

  /** Being free of debt can be read off the slots. */
  lemma DebtFreeMeaning(w: State)
    ensures TotalDebt(w) == 0 <==> NoPendingClears(w)
  {
    forall a | a in w
      ensures DebtOf(w[a]) >= 0
      ensures (forall k :: k in w[a].slots ==> Reclaimable(w[a].slots[k]) == 0) <==> DebtOf(w[a]) == 0
    {
      AccountDebt(w[a]);
    }
    if NoPendingClears(w) {
      SumZero(w, DebtOf);
    } else {
      var a :| a in w && !(forall k :: k in w[a].slots ==> Reclaimable(w[a].slots[k]) == 0);
      SumBounds(w, DebtOf, a, a);
    }
  }

  lemma AccountDebt(account: Account)
    ensures DebtOf(account) >= 0
    ensures (forall k :: k in account.slots ==> Reclaimable(account.slots[k]) == 0) <==> DebtOf(account) == 0
  {
    SumNonNegative(account.slots, Reclaimable);
    if forall k :: k in account.slots ==> Reclaimable(account.slots[k]) == 0 {
      SumZero(account.slots, Reclaimable);
    } else {
      var k :| k in account.slots && Reclaimable(account.slots[k]) != 0;
      SumBounds(account.slots, Reclaimable, k, k);
    }
  }

  /** An account change that leaves balance and storage alone. */
  lemma ReplaceNeutral(w: State, a: Address, v: Account)
    requires v.balance == At(w, a).balance && v.slots == At(w, a).slots
    ensures Balanced(w, w[a := v], 0)
  {
    Replace(w, a, v);
  }

  /** Adding within range moves the total by exactly the amount. */
  lemma AddBalanceTotal(w: State, a: Address, value: int)
    requires 0 <= TotalBalance(w) + value < MODULUS && At(w, a).balance + value >= 0
    ensures At(AddBalance(w, a, value), a).balance == At(w, a).balance + value
    ensures TotalBalance(AddBalance(w, a, value)) == TotalBalance(w) + value
    ensures TotalDebt(AddBalance(w, a, value)) == TotalDebt(w)
  {
    BalanceBelowTotal(w, a, a);
    Replace(w, a, At(w, a).(balance := Wrap(At(w, a).balance + value)));
  }

  lemma TransferBalanced(w: State, sender: Address, recipient: Address, value: nat)
    ensures Balanced(w, Transfer(w, sender, recipient, value).1, 0)
  {
    if value == 0 {
      ReplaceNeutral(w, recipient, At(w, recipient));
    } else if At(w, sender).balance >= value {
      var w1 := SetBalance(w, sender, At(w, sender).balance - value);
      Replace(w, sender, At(w, sender).(balance := At(w, sender).balance - value));
      Replace(w1, recipient, At(w1, recipient).(balance := Wrap(At(w1, recipient).balance + value)));
      if TotalBalance(w) < MODULUS {
        BalanceBelowTotal(w1, recipient, recipient);
        AddBalanceTotal(w1, recipient, value);
      }
    }
  }

  lemma StoreBalanced(w: State, a: Address, key: Word, value: Word)
    ensures Balanced(w, SetStorage(w, a, key, value), SstoreCost(SlotAt(At(w, a).slots, key), value).1)
  {
    var account := At(w, a);
    var slot := SlotAt(account.slots, key);
    Replace(w, a, account.(slots := WriteSlot(account.slots, key, value)));
    SumSlotsUpdate(account.slots, Reclaimable, key, slot.(current := value));
    WriteReclaimable(slot, value);
  }

  /** Committing neither creates nor destroys ether, and settles every debt. */
  lemma CommitTotals(w: State)
    ensures TotalBalance(Commit(w)) == TotalBalance(w)
    ensures TotalDebt(Commit(w)) == 0
  {
    SumSupport(Commit(w), w, BalanceOf);
    forall a | a in Commit(w)
      ensures DebtOf(Commit(w)[a]) == 0
    {
      SumZero(Commit(w)[a].slots, Reclaimable);
    }
    SumZero(Commit(w), DebtOf);
  }

  /** What a reader of the state can see of an account survives a commit. */
  lemma CommitKeepsAccounts(w: State, a: Address)
    ensures var before, after := At(w, a), At(Commit(w), a);
      && after.nonce == before.nonce && after.balance == before.balance && after.code == before.code
      && Clean(after.slots)
      && (forall k :: SlotAt(after.slots, k).current == SlotAt(before.slots, k).current)
      && (a in Commit(w) <==> before.nonce != 0 || before.balance != 0 || before.code != [] || InUse(before.slots))
  {
    if a in w {
      var slots, kept := w[a].slots, CommitSlots(w[a].slots);
      assert forall k :: k in kept ==> SlotAt(kept, k) == kept[k] && SlotAt(kept, k).current == SlotAt(slots, k).current;
    }
  }

  /** Some slot holds something. */
  ghost predicate InUse(slots: Slots) {
    exists k :: SlotAt(slots, k).current != 0
  }

  /** Only the account at `a` is written, and it is created if it was missing. */
  ghost predicate Wrote(w: State, w': State, a: Address, after: Account) {
    w'.Keys == w.Keys + {a} && At(w', a) == after && forall b :: b != a ==> At(w', b) == At(w, b)
  }

  /** Each write changes one field of one account. */
  lemma WritesAreLocal(w: State, a: Address, n: Word, value: int, code: seq<Byte>, key: Word, word: Word)
    ensures var was, sum := At(w, a), (At(w, a).balance + value) % MODULUS;
      && Wrote(w, SetNonce(w, a, n), a, Account(n, was.balance, was.code, was.slots))
      && Wrote(w, IncrementNonce(w, a), a, Account((was.nonce + 1) % MODULUS, was.balance, was.code, was.slots))
      && Wrote(w, SetCode(w, a, code), a, Account(was.nonce, was.balance, code, was.slots))
      && Wrote(w, AddBalance(w, a, value), a, Account(was.nonce, sum, was.code, was.slots))
      && Wrote(w, Touch(w, a), a, was)
    ensures var w' := SetStorage(w, a, key, word);
      && w'.Keys == w.Keys + {a} && (forall b :: b != a ==> At(w', b) == At(w, b))
      && At(w', a).(slots := At(w, a).slots) == At(w, a)
      && GetStorage(w', a, key) == word
      && forall k: Word :: k != key ==> GetStorage(w', a, k) == GetStorage(w, a, k)
  {
  }

  /** Moving value: the sender pays and the recipient gets it, unless the sender has too little; nobody else notices, and
      nothing but balances changes. To oneself it is no change, and without a value the recipient comes to exist. */
  lemma TransferMoves(w: State, sender: Address, recipient: Address, value: nat)
    requires TotalBalance(w) < MODULUS
    ensures var (paid, w') := Transfer(w, sender, recipient, value);
      && paid == (value <= At(w, sender).balance)
      && (!paid ==> w' == w)
      && (paid ==>
            && w'.Keys == w.Keys + {recipient} + (if value == 0 then {} else {sender})
            && forall b: Address ::
                 var gain := (if b == recipient then value else 0) - (if b == sender then value else 0);
                 At(w', b).balance == At(w, b).balance + gain && At(w', b).(balance := At(w, b).balance) == At(w, b))
  {
    BalanceBelowTotal(w, sender, recipient);
    BalanceBelowTotal(w, recipient, sender);
  }
}
