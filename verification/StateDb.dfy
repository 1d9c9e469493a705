/** The state database as the mutable object graph the interpreter works on. */
module StateDb {
  import opened Bytes
  import opened Collections
  import opened SlotStorage
  import opened World
  import W = World

  class AccountObject {
    var nonce: Word
    var balance: Word
    var code: seq<Byte>
    const storage: Storage
    ghost const owner: Address

    constructor (nonce: Word, balance: Word, code: seq<Byte>, storage: Storage)
      ensures this.nonce == nonce && this.balance == balance && this.code == code && this.storage == storage
      ensures owner == storage.owner
    {
      this.owner := storage.owner;
      this.nonce := nonce;
      this.balance := balance;
      this.code := code;
      this.storage := storage;
    }

    ghost function View(): Account
      reads this, storage
    {
      Account(nonce, balance, code, storage.slots)
    }

    method Clone() returns (copy: AccountObject)
      ensures fresh(copy) && fresh(copy.storage) && copy.View() == View() && copy.owner == copy.storage.owner == storage.owner
    {
      var store := storage.Clone();
      copy := new AccountObject(nonce, balance, code, store);
    }

    method IsEmpty() returns (empty: bool)
      ensures empty <==> W.IsEmpty(View())
    {
      var slots := storage.slots;
      empty := nonce == 0 && balance == 0 && code == [] && forall k :: k in slots ==> slots[k].current == 0;
    }
  }

  type Objects = map<Address, AccountObject>

  /** `account` is owned by address `a`, with its own storage, and lives inside `repr`. */
  ghost predicate Owned(account: AccountObject, a: Address, repr: set<object>) {
    account in repr && account.storage in repr && account.owner == account.storage.owner == a
  }

  /** The account dictionary `m`, living inside `repr`, has the value `value`; as every object has one owner, no two
      addresses share one. */
  ghost predicate Represents(m: Objects, repr: set<object>, value: State)
    reads repr
  {
    && m.Keys == value.Keys
    && (forall a :: a in m ==>
          Owned(m[a], a, repr) && value[a] == Account(m[a].nonce, m[a].balance, m[a].code, m[a].storage.slots))
  }

  /** Deep copy of an account dictionary: the same value, in objects that did not exist before. */
  method CloneAll(m: Objects, ghost repr: set<object>, ghost value: State)
    returns (copy: Objects, ghost copyRepr: set<object>)
    requires Represents(m, repr, value)
    ensures Represents(copy, copyRepr, value) && fresh(copyRepr)
  {
    copy, copyRepr := map[], {};
    var todo := m.Keys;
    while todo != {}
      invariant todo <= m.Keys && copy.Keys == m.Keys - todo && fresh(copyRepr)
      invariant forall a :: a in copy ==> Owned(copy[a], a, copyRepr) && copy[a].View() == value[a]
      decreases todo
    {
      var a :| a in todo;
      var account := m[a].Clone();
      copy := copy[a := account];
      copyRepr := copyRepr + {account, account.storage};
      todo := todo - {a};
    }
  }

  class StateDB {
    var accounts: Objects
    ghost var Repr: set<object>
    ghost var Value: State

    ghost predicate Valid()
      reads this, Repr
    {
      this in Repr && Represents(accounts, Repr, Value)
    }

    constructor ()
      ensures Valid() && Value == map[] && fresh(Repr)
    {
      accounts := map[];
      Repr := {this};
      Value := map[];
    }

    /** The snapshot shares no object with the live state or with anything allocated before. */
    method Snapshot() returns (snapshot: Objects, ghost repr: set<object>)
      requires Valid()
      ensures Represents(snapshot, repr, Value) && fresh(repr)
    {
      snapshot, repr := CloneAll(accounts, Repr, Value);
    }

    /** Goes back to the value of `snapshot`, again without sharing, so that the snapshot stays usable. */
    method Restore(snapshot: Objects, ghost repr: set<object>, ghost value: State)
      requires this in Repr && Represents(snapshot, repr, value)
      modifies this
      ensures Valid() && Value == value && fresh(Repr - {this})
    {
      ghost var fresher;
      accounts, fresher := CloneAll(snapshot, repr, value);
      Repr := {this} + fresher;
      Value := value;
    }

    method Clone() returns (copy: StateDB)
      requires Valid()
      ensures copy.Valid() && fresh(copy.Repr) && copy.Value == Value
    {
      var objects, repr := CloneAll(accounts, Repr, Value);
      copy := new StateDB();
      copy.accounts := objects;
      copy.Repr := {copy} + repr;
      copy.Value := Value;
    }

    /** The accounts as a value, for those who only look. */
    method View() returns (value: State)
      requires Valid()
      ensures value == Value
    {
      value := map[];
      var todo := accounts.Keys;
      while todo != {}
        invariant todo <= accounts.Keys && value.Keys == accounts.Keys - todo
        invariant forall a :: a in value ==> value[a] == Value[a]
        decreases todo
      {
        var a :| a in todo;
        var account := accounts[a];
        value := value[a := Account(account.nonce, account.balance, account.code, account.storage.slots)];
        todo := todo - {a};
      }
    }

    /** Copies of the accounts and the order of their addresses; empty accounts only when asked for. */
    method Accounts(includeEmpty: bool) returns (order: seq<Address>, copies: Objects, ghost repr: set<object>)
      requires Valid()
      ensures Represents(copies, repr, if includeEmpty then Value else W.RemoveEmptyAccounts(Value)) && fresh(repr)
      ensures Ascending(order) && Elements(order) == copies.Keys
    {
      var dropped: set<Address> := {};
      if !includeEmpty {
        dropped := EmptyAccounts();
      }
      copies, repr := CloneAll(accounts - dropped, Repr, Value - dropped);
      var ascending := Ascend(copies.Keys);
      assert forall i :: 0 <= i < |ascending| ==> ascending[i] in Elements(ascending);
      order := ascending;
      assert Value - {} == Value;
    }

    method EmptyAccounts() returns (emptyAccounts: set<Address>)
      requires Valid()
      ensures emptyAccounts == set a | a in Value && W.IsEmpty(Value[a])
      ensures Value - emptyAccounts == W.RemoveEmptyAccounts(Value)
    {
      emptyAccounts := {};
      var todo := accounts.Keys;
      while todo != {}
        invariant todo <= accounts.Keys
        invariant emptyAccounts == set a | a in accounts && a !in todo && W.IsEmpty(Value[a])
        decreases todo
      {
        var a :| a in todo;
        todo := todo - {a};
        var empty := accounts[a].IsEmpty();
        if empty {
          emptyAccounts := emptyAccounts + {a};
        }
      }
    }

    method AccountExists(a: Address) returns (found: bool)
      requires Valid()
      ensures found <==> a in Value
    {
      found := a in accounts;
    }

    method GetOrCreateAccount(a: Address) returns (account: AccountObject)
      requires Valid()
      modifies this
      ensures Valid() && Value == Touch(old(Value), a)
      ensures a in accounts && accounts[a] == account && {account, account.storage} <= Repr
      ensures account.View() == At(old(Value), a)
      ensures fresh(Repr - old(Repr))
    {
      Value := Touch(Value, a);
      if a in accounts {
        return accounts[a];
      }
      var store := new Storage(map[], a);
      account := new AccountObject(0, 0, [], store);
      accounts := accounts[a := account];
      Repr := Repr + {account, store};
    }

    method GetBalance(a: Address) returns (balance: Word)
      requires Valid()
      ensures balance == At(Value, a).balance
    {
      balance := if a in accounts then accounts[a].balance else 0;
    }

    // Writing fields of one account object updates one entry of the abstract value.

    method AssignBalance(a: Address, account: AccountObject, balance: Word)
      requires Valid() && a in accounts && accounts[a] == account
      modifies this, account, account.storage
      ensures Valid() && Repr == old(Repr) && accounts == old(accounts)
      ensures Value == old(Value)[a := old(Value)[a].(balance := balance)]
    {
      account.balance := balance;
      Value := Value[a := account.View()];
    }

    method AssignNonce(a: Address, account: AccountObject, nonce: Word)
      requires Valid() && a in accounts && accounts[a] == account
      modifies this, account, account.storage
      ensures Valid() && Repr == old(Repr) && accounts == old(accounts)
      ensures Value == old(Value)[a := old(Value)[a].(nonce := nonce)]
    {
      account.nonce := nonce;
      Value := Value[a := account.View()];
    }

    method AssignCode(a: Address, account: AccountObject, code: seq<Byte>)
      requires Valid() && a in accounts && accounts[a] == account
      modifies this, account, account.storage
      ensures Valid() && Repr == old(Repr) && accounts == old(accounts)
      ensures Value == old(Value)[a := old(Value)[a].(code := code)]
    {
      account.code := code;
      Value := Value[a := account.View()];
    }

    method AssignSlot(a: Address, account: AccountObject, key: Word, value: Word)
      requires Valid() && a in accounts && accounts[a] == account
      modifies this, account, account.storage
      ensures Valid() && Repr == old(Repr) && accounts == old(accounts)
      ensures Value == old(Value)[a := old(Value)[a].(slots := WriteSlot(old(Value)[a].slots, key, value))]
    {
      var _, _ := account.storage.Set(key, value);
      Value := Value[a := account.View()];
    }

    method CommitStorage(a: Address, account: AccountObject)
      requires Valid() && a in accounts && accounts[a] == account
      modifies this, account, account.storage
      ensures Valid() && Repr == old(Repr) && accounts == old(accounts)
      ensures Value == old(Value)[a := old(Value)[a].(slots := CommitSlots(old(Value)[a].slots))]
    {
      account.storage.Commit();
      Value := Value[a := account.View()];
    }

    method SetBalance(a: Address, value: int)
      requires Valid()
      modifies Repr
      ensures Valid() && Value == W.SetBalance(old(Value), a, value)
      ensures fresh(Repr - old(Repr))
    {
      hide Represents;
      var account := GetOrCreateAccount(a);
      AssignBalance(a, account, Wrap(value));
    }

    method AddBalance(a: Address, value: int)
      requires Valid()
      modifies Repr
      ensures Valid() && Value == W.AddBalance(old(Value), a, value)
      ensures fresh(Repr - old(Repr))
    {
      var balance := GetBalance(a);
      SetBalance(a, balance + value);
    }

    method SubtractBalance(a: Address, value: nat) returns (ok: bool)
      requires Valid()
      modifies Repr
      ensures Valid() && (ok, Value) == W.SubtractBalance(old(Value), a, value)
      ensures fresh(Repr - old(Repr))
    {
      var current := GetBalance(a);
      if current < value {
        return false;
      }
      SetBalance(a, current - value);
      return true;
    }

    method Transfer(sender: Address, recipient: Address, value: nat) returns (ok: bool)
      requires Valid()
      modifies Repr
      ensures Valid() && (ok, Value) == W.Transfer(old(Value), sender, recipient, value)
      ensures fresh(Repr - old(Repr))
    {
      if value == 0 {
        var _ := GetOrCreateAccount(recipient);
        return true;
      }
      ok := SubtractBalance(sender, value);
      if ok {
        AddBalance(recipient, value);
      }
    }

    method GetNonce(a: Address) returns (nonce: Word)
      requires Valid()
      ensures nonce == At(Value, a).nonce
    {
      nonce := if a in accounts then accounts[a].nonce else 0;
    }

    method SetNonce(a: Address, nonce: Word)
      requires Valid()
      modifies Repr
      ensures Valid() && Value == W.SetNonce(old(Value), a, nonce)
      ensures fresh(Repr - old(Repr))
    {
      hide Represents;
      var account := GetOrCreateAccount(a);
      AssignNonce(a, account, nonce);
    }

    method IncrementNonce(a: Address)
      requires Valid()
      modifies Repr
      ensures Valid() && Value == W.IncrementNonce(old(Value), a)
      ensures fresh(Repr - old(Repr))
    {
      var nonce := GetNonce(a);
      SetNonce(a, Wrap(nonce as int + 1));
    }

    method GetCode(a: Address) returns (code: seq<Byte>)
      requires Valid()
      ensures code == At(Value, a).code
    {
      code := if a in accounts then accounts[a].code else [];
    }

    method SetCode(a: Address, code: seq<Byte>)
      requires Valid()
      modifies Repr
      ensures Valid() && Value == W.SetCode(old(Value), a, code)
      ensures fresh(Repr - old(Repr))
    {
      hide Represents;
      var account := GetOrCreateAccount(a);
      AssignCode(a, account, code);
    }

    method CanDeployTo(a: Address) returns (ok: bool)
      requires Valid()
      ensures ok <==> W.CanDeployTo(Value, a)
    {
      ok := a !in accounts || (accounts[a].nonce == 0 && accounts[a].code == []);
    }

    method GetStorage(a: Address, key: Word) returns (value: Word)
      requires Valid()
      ensures value == W.GetStorage(Value, a, key)
    {
      value := if a in accounts then SlotAt(accounts[a].storage.slots, key).current else 0;
    }

    /** Estimating creates the account if it is missing. */
    method EstimateSstore(a: Address, key: Word, value: Word) returns (cost: nat, refund: int)
      requires Valid()
      modifies Repr
      ensures Valid() && Value == Touch(old(Value), a)
      ensures (cost, refund) == SstoreCost(SlotAt(At(old(Value), a).slots, key), value)
      ensures fresh(Repr - old(Repr))
    {
      var account := GetOrCreateAccount(a);
      cost, refund := account.storage.EstimateSstoreCost(key, value);
    }

    method SetStorage(a: Address, key: Word, value: Word)
      requires Valid()
      modifies Repr
      ensures Valid() && Value == W.SetStorage(old(Value), a, key, value)
      ensures fresh(Repr - old(Repr))
    {
      hide Represents;
      var account := GetOrCreateAccount(a);
      AssignSlot(a, account, key, value);
    }

    method CommitTransaction()
      requires Valid()
      modifies Repr
      ensures Valid() && Value == Commit(old(Value))
      ensures Repr == old(Repr)
    {
      CommitStorages();
      RemoveEmptyAccounts();
    }

    method RemoveEmptyAccounts()
      requires Valid()
      modifies this
      ensures Valid() && Repr == old(Repr)
      ensures Value == W.RemoveEmptyAccounts(old(Value))
    {
      var emptyAccounts := EmptyAccounts();
      accounts := accounts - emptyAccounts;
      Value := Value - emptyAccounts;
    }

    method CommitStorages()
      requires Valid()
      modifies Repr
      ensures Valid() && Repr == old(Repr)
      ensures Value == W.CommitStorages(old(Value))
    {
      ghost var before := Value;
      var todo := accounts.Keys;
      while todo != {}
        invariant Valid() && accounts == old(accounts) && Repr == old(Repr) && todo <= accounts.Keys
        invariant Value == map a | a in before ::
                    if a in todo then before[a] else before[a].(slots := CommitSlots(before[a].slots))
        decreases todo
      {
        var a :| a in todo;
        todo := todo - {a};
        CommitStorage(a, accounts[a]);
      }
    }
  }
}
