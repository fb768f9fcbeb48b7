/**
 * The wallet table, the history log and everything that reads them.
 *
 * A wallet row is keyed by its token and holds an owner and a balance in
 * hundredths of the currency unit.  The history log is append-only; an
 * entry's date is its position in the log, so "newest first" is "highest
 * position first".  The two mutating operations of the store are given here
 * as functions from the old tables to the new ones (`AfterCreate`,
 * `AfterDeposit`, `AfterCharge`); the class in module WalletStore is proved
 * to follow them, and the lemmas below are about them.
 */
module WalletModels {

  datatype Option<T> = None | Some(value: T)

  /** A wallet token: a 128-bit UUID. */
  const UUID_SPACE: nat := 0x1_0000_0000_0000_0000_0000_0000_0000_0000
  type Token = t: nat | t < UUID_SPACE

  /** A token as received from a caller: a well-formed UUID, or text that is not one. */
  datatype TokenText = Uuid(value: Token) | Malformed(text: string)

  type UserId = nat

  /** An authenticated user and the two role flags the wallet limit looks at. */
  datatype User = User(id: UserId, isClient: bool, isCompany: bool)

  /** The per-role wallet maxima; 0 means unlimited. */
  datatype Limits = Limits(maxByClient: nat, maxByCompany: nat)

  datatype Wallet = Wallet(token: Token, owner: UserId, balance: int)

  type WalletTable = map<Token, Wallet>

  /** One row of the history log; `source` is absent for a deposit. */
  datatype Entry = Entry(summary: string, source: Option<Token>, target: Token, amount: int, date: nat, success: bool)

  /** The two tables the store persists. */
  datatype Tables = Tables(wallets: WalletTable, history: seq<Entry>)

  datatype ChargeOutcome = Charged | InsufficientFunds | SourceNotFound

  const DEPOSIT_SUMMARY: string := "Deposit"

  // ---------------------------------------------------------------------------
  // Wallet queries

  /** The tokens of the wallets `owner` owns. */
  function OwnedBy(t: WalletTable, owner: UserId): (r: set<Token>)
    ensures r <= t.Keys
    ensures forall k :: k in r <==> k in t && t[k].owner == owner
  {
    set k | k in t && t[k].owner == owner
  }

  /** `count_by_user`: how many wallets `owner` has. */
  function CountByUser(t: WalletTable, owner: UserId): (n: nat)
    ensures n <= |t|
    ensures n == 0 <==> forall k :: k in t ==> t[k].owner != owner
  {
    var own := OwnedBy(t, owner);
    SubsetCardinality(own, t.Keys);
    |own|
  }

  /** `get_all_by_user`: the wallets of `owner`, in no particular order. */
  function GetAllByUser(t: WalletTable, owner: UserId): (r: set<Wallet>)
    requires WellKeyed(t)
    ensures forall w :: w in r <==> w.token in t && t[w.token] == w && w.owner == owner
  {
    set k | k in t && t[k].owner == owner :: t[k]
  }

  /**
   * `get_by_token`: the wallet with that token, or nothing when the token is
   * unknown or is not a well-formed UUID.
   */
  function GetByToken(t: WalletTable, tok: TokenText): (r: Option<Wallet>)
    requires WellKeyed(t)
    ensures r.Some? <==> tok.Uuid? && tok.value in t
    ensures r.Some? ==> r.value == t[tok.value] && r.value.token == tok.value
  {
    match tok
    case Malformed(_) => None
    case Uuid(k) => if k in t then Some(t[k]) else None
  }

  /** `get_unique_by_user`: the owner's wallet when there is exactly one, nothing for none or several. */
  function GetUniqueByUser(t: WalletTable, owner: UserId): (r: Option<Wallet>)
    requires WellKeyed(t)
    ensures r.Some? <==> CountByUser(t, owner) == 1
    ensures r.Some? ==> r.value.token in t && t[r.value.token] == r.value && r.value.owner == owner
    ensures r.Some? ==> GetAllByUser(t, owner) == {r.value}
  {
    var own := OwnedBy(t, owner);
    if |own| == 1 then
      var k := TheElement(own);
      assert GetAllByUser(t, owner) == {t[k]} by {
        forall w | w in GetAllByUser(t, owner) ensures w == t[k] {
          assert w.token in own;
        }
      }
      Some(t[k])
    else None
  }

  /**
   * `can_create_new`: a client may create another wallet when the client
   * maximum is 0 or not yet reached, a company likewise with the company
   * maximum; the client flag is looked at first, and a user with neither
   * role may not create one.
   */
  function CanCreateNew(t: WalletTable, limits: Limits, user: User): (ok: bool)
    ensures ok <==> (user.isClient || user.isCompany) &&
                    (RoleLimit(limits, user) == 0 || CountByUser(t, user.id) < RoleLimit(limits, user))
  {
    if user.isClient then
      limits.maxByClient == 0 || CountByUser(t, user.id) < limits.maxByClient
    else if user.isCompany then
      limits.maxByCompany == 0 || CountByUser(t, user.id) < limits.maxByCompany
    else false
  }

  /** The limit that applies to `user`: the client one first, then the company one. */
  function RoleLimit(limits: Limits, user: User): (m: nat)
    requires user.isClient || user.isCompany
  {
    if user.isClient then limits.maxByClient else limits.maxByCompany
  }

  // ---------------------------------------------------------------------------
  // History log

  /** The row `new_deposit` inserts: summary "Deposit", no source, success by default. */
  function DepositEntry(w: Token, amount: int, date: nat): (e: Entry)
  {
    Entry(DEPOSIT_SUMMARY, None, w, amount, date, true)
  }

  /** The row `new_transfer` inserts. */
  function TransferEntry(source: Token, target: Token, summary: string, amount: int, date: nat, success: bool): (e: Entry)
  {
    Entry(summary, Some(source), target, amount, date, success)
  }

  predicate Touches(e: Entry, w: Token)
  {
    e.target == w || e.source == Some(w)
  }

  /** Sum of the amounts of successful entries crediting `w`. */
  function Inflow(log: seq<Entry>, w: Token): (n: int)
  {
    if log == [] then 0
    else
      var e := log[|log| - 1];
      Inflow(log[..|log| - 1], w) + (if e.success && e.target == w then e.amount else 0)
  }

  /** Sum of the amounts of successful entries debiting `w`. */
  function Outflow(log: seq<Entry>, w: Token): (n: int)
  {
    if log == [] then 0
    else
      var e := log[|log| - 1];
      Outflow(log[..|log| - 1], w) + (if e.success && e.source == Some(w) then e.amount else 0)
  }

  /**
   * `get_full_history`: the entries whose source or target is `w`, from the
   * most recent to the oldest.
   */
  function FullHistory(log: seq<Entry>, w: Token): (r: seq<Entry>)
    ensures |r| <= |log|
    ensures forall i :: 0 <= i < |r| ==> Touches(r[i], w)
  {
    if log == [] then []
    else
      var e := log[|log| - 1];
      (if Touches(e, w) then [e] else []) + FullHistory(log[..|log| - 1], w)
  }

  // ---------------------------------------------------------------------------
  // The invariant of the two tables

  /** Every row is stored under its own token. */
  ghost predicate WellKeyed(t: WalletTable)
  {
    forall k :: k in t ==> t[k].token == k
  }

  /** Every entry refers to wallets that exist. */
  ghost predicate Referenced(t: WalletTable, log: seq<Entry>)
  {
    forall i :: 0 <= i < |log| ==> log[i].target in t && (log[i].source.Some? ==> log[i].source.value in t)
  }

  /** Each entry is dated by its position in the log. */
  ghost predicate Chronological(log: seq<Entry>)
  {
    forall i :: 0 <= i < |log| ==> log[i].date == i
  }

  ghost predicate PositiveAmounts(log: seq<Entry>)
  {
    forall i :: 0 <= i < |log| ==> log[i].amount > 0
  }

  /** Every balance is the net of the successful entries touching that wallet. */
  ghost predicate Reconciled(t: WalletTable, log: seq<Entry>)
  {
    forall k :: k in t ==> t[k].balance == Inflow(log, k) - Outflow(log, k)
  }

  ghost predicate NonNegative(t: WalletTable)
  {
    forall k :: k in t ==> t[k].balance >= 0
  }

  ghost predicate Good(s: Tables)
  {
    && WellKeyed(s.wallets)
    && Referenced(s.wallets, s.history)
    && Chronological(s.history)
    && PositiveAmounts(s.history)
    && Reconciled(s.wallets, s.history)
    && NonNegative(s.wallets)
  }

  // ---------------------------------------------------------------------------
  // The operations that change the tables

  /**
   * `create_new`: insert a wallet with balance 0 for `owner` under the
   * generated token.  Inserting a token already present fails on the primary
   * key and leaves the tables as they were.
   */
  function AfterCreate(s: Tables, owner: UserId, generated: Token): (r: Tables)
    ensures r.history == s.history
    ensures r.wallets.Keys == s.wallets.Keys + {generated}
    ensures forall k :: k in s.wallets ==> r.wallets[k] == s.wallets[k]
  {
    if generated in s.wallets then s
    else Tables(s.wallets[generated := Wallet(generated, owner, 0)], s.history)
  }

  /** `Wallet.deposit`: credit `w` by `amount`, then log one "Deposit" entry. */
  function AfterDeposit(s: Tables, w: Token, amount: int): (r: Tables)
    requires w in s.wallets
    ensures r.wallets.Keys == s.wallets.Keys
    ensures |r.history| == |s.history| + 1 && r.history[..|s.history|] == s.history
  {
    var t := s.wallets;
    Tables(t[w := t[w].(balance := t[w].balance + amount)], s.history + [DepositEntry(w, amount, |s.history|)])
  }

  /** What `Wallet.make_charge` reports for a charge of `amount` from `source`. */
  function ChargeOutcomeOf(s: Tables, source: Token, amount: int): (o: ChargeOutcome)
  {
    if source !in s.wallets then SourceNotFound
    else if s.wallets[source].balance >= amount then Charged
    else InsufficientFunds
  }

  /** The table after debiting `source` and then crediting `target`, in that order. */
  function Transfer(t: WalletTable, source: Token, target: Token, amount: int): (t': WalletTable)
    requires source in t && target in t
  {
    var debited := t[source := t[source].(balance := t[source].balance - amount)];
    debited[target := debited[target].(balance := debited[target].balance + amount)]
  }

  /**
   * `Wallet.make_charge` run on the wallet `target`: a missing source changes
   * nothing; otherwise the money moves only when the source holds at least
   * `amount`, and one entry recording the outcome is logged either way.
   */
  function AfterCharge(s: Tables, target: Token, source: Token, amount: int, summary: string): (r: Tables)
    requires target in s.wallets
    ensures r.wallets.Keys == s.wallets.Keys
    ensures |r.history| == |s.history| + (if ChargeOutcomeOf(s, source, amount) == SourceNotFound then 0 else 1)
    ensures r.history[..|s.history|] == s.history
  {
    match ChargeOutcomeOf(s, source, amount)
    case SourceNotFound => s
    case Charged =>
      Tables(Transfer(s.wallets, source, target, amount),
             s.history + [TransferEntry(source, target, summary, amount, |s.history|, true)])
    case InsufficientFunds =>
      Tables(s.wallets, s.history + [TransferEntry(source, target, summary, amount, |s.history|, false)])
  }

  // ---------------------------------------------------------------------------
  // Set helpers

  lemma SubsetCardinality<T>(a: set<T>, b: set<T>)
    requires a <= b
    ensures |a| <= |b|
  {
    assert b == a + (b - a);
  }

  function TheElement<T>(s: set<T>): (x: T)
    requires |s| == 1
    ensures s == {x}
  {
    var x :| x in s;
    assert s == {x} by {
      assert |s - {x}| == 0;
    }
    x
  }

  // ---------------------------------------------------------------------------
  // Ledger lemmas

  lemma InflowAppend(log: seq<Entry>, e: Entry, w: Token)
    ensures Inflow(log + [e], w) == Inflow(log, w) + (if e.success && e.target == w then e.amount else 0)
  {
    assert (log + [e])[..|log|] == log;
  }

  lemma OutflowAppend(log: seq<Entry>, e: Entry, w: Token)
    ensures Outflow(log + [e], w) == Outflow(log, w) + (if e.success && e.source == Some(w) then e.amount else 0)
  {
    assert (log + [e])[..|log|] == log;
  }

  /** A wallet no entry touches has neither inflow nor outflow. */
  lemma {:induction false} UntouchedHasNoFlow(log: seq<Entry>, w: Token)
    requires forall i :: 0 <= i < |log| ==> !Touches(log[i], w)
    ensures Inflow(log, w) == 0 && Outflow(log, w) == 0
  {
    if log != [] {
      var p := log[..|log| - 1];
      assert forall i :: 0 <= i < |p| ==> p[i] == log[i];
      UntouchedHasNoFlow(p, w);
    }
  }

  /** A newly appended entry is the first row of the history of every wallet it touches. */
  lemma FullHistoryAppend(log: seq<Entry>, e: Entry, w: Token)
    ensures FullHistory(log + [e], w) == (if Touches(e, w) then [e] else []) + FullHistory(log, w)
  {
    assert (log + [e])[..|log|] == log;
  }

  /** `get_full_history` holds exactly the log entries whose source or target is `w`. */
  lemma {:induction false} FullHistoryMembers(log: seq<Entry>, w: Token, e: Entry)
    ensures e in FullHistory(log, w) <==> e in log && Touches(e, w)
  {
    if log != [] {
      var p := log[..|log| - 1];
      assert log == p + [log[|log| - 1]];
      FullHistoryMembers(p, w, e);
    }
  }

  /** It holds each of them exactly as often as the log does. */
  lemma {:induction false} FullHistoryCount(log: seq<Entry>, w: Token, e: Entry)
    requires Touches(e, w)
    ensures multiset(FullHistory(log, w))[e] == multiset(log)[e]
  {
    if log != [] {
      var p := log[..|log| - 1];
      var last := log[|log| - 1];
      assert log == p + [last];
      FullHistoryCount(p, w, e);
    }
  }

  ghost predicate IncreasingDates(log: seq<Entry>)
  {
    forall i, j :: 0 <= i < j < |log| ==> log[i].date < log[j].date
  }

  /** On a log dated in increasing order, `get_full_history` is newest first. */
  lemma {:induction false} FullHistoryNewestFirst(log: seq<Entry>, w: Token)
    requires IncreasingDates(log)
    ensures forall i, j :: 0 <= i < j < |FullHistory(log, w)| ==>
              FullHistory(log, w)[i].date > FullHistory(log, w)[j].date
  {
    if log != [] {
      var p := log[..|log| - 1];
      var last := log[|log| - 1];
      assert IncreasingDates(p);
      FullHistoryNewestFirst(p, w);
      var rest := FullHistory(p, w);
      forall e | e in rest ensures e.date < last.date {
        FullHistoryMembers(p, w, e);
        var k :| 0 <= k < |p| && p[k] == e;
        assert log[k] == e;
      }
    }
  }

  lemma ChronologicalIsIncreasing(log: seq<Entry>)
    requires Chronological(log)
    ensures IncreasingDates(log)
  {
  }

  /** On the store's own log, `get_full_history` of any wallet is strictly newest first. */
  lemma StoreHistoryNewestFirst(s: Tables, w: Token)
    requires Good(s)
    ensures forall i, j :: 0 <= i < j < |FullHistory(s.history, w)| ==>
              FullHistory(s.history, w)[i].date > FullHistory(s.history, w)[j].date
  {
    ChronologicalIsIncreasing(s.history);
    FullHistoryNewestFirst(s.history, w);
  }

  // ---------------------------------------------------------------------------
  // What each operation does and the invariant it keeps

  /** A fresh wallet no entry refers to, so a balance of 0 reconciles with the log. */
  lemma CreatePreservesGood(s: Tables, owner: UserId, generated: Token)
    requires Good(s)
    ensures Good(AfterCreate(s, owner, generated))
  {
    if generated !in s.wallets {
      var r := AfterCreate(s, owner, generated);
      forall i | 0 <= i < |s.history| ensures !Touches(s.history[i], generated) {
      }
      UntouchedHasNoFlow(s.history, generated);
      assert Reconciled(r.wallets, r.history);
    }
  }

  /** Creating a wallet for `owner` adds exactly one wallet to `owner` and none to anyone else. */
  lemma CreateCountsOne(s: Tables, owner: UserId, generated: Token, other: UserId)
    requires generated !in s.wallets
    ensures CountByUser(AfterCreate(s, owner, generated).wallets, owner) == CountByUser(s.wallets, owner) + 1
    ensures other != owner ==>
              CountByUser(AfterCreate(s, owner, generated).wallets, other) == CountByUser(s.wallets, other)
    ensures AfterCreate(s, owner, generated).wallets[generated] == Wallet(generated, owner, 0)
  {
    var t := s.wallets;
    var t' := AfterCreate(s, owner, generated).wallets;
    assert OwnedBy(t', owner) == OwnedBy(t, owner) + {generated};
    assert generated !in OwnedBy(t, owner);
    if other != owner {
      assert OwnedBy(t', other) == OwnedBy(t, other);
    }
  }

  /**
   * Creating a wallet only when `can_create_new` allows it never takes a
   * user past the maximum of their role.
   */
  lemma GuardedCreationRespectsLimit(s: Tables, limits: Limits, user: User, generated: Token)
    requires CanCreateNew(s.wallets, limits, user)
    ensures user.isClient || user.isCompany
    ensures RoleLimit(limits, user) > 0 ==>
              CountByUser(AfterCreate(s, user.id, generated).wallets, user.id) <= RoleLimit(limits, user)
  {
    if generated !in s.wallets {
      CreateCountsOne(s, user.id, generated, user.id);
    }
  }

  /** Below a positive maximum for the role, `can_create_new` allows. */
  lemma BelowLimitAllows(t: WalletTable, limits: Limits, user: User)
    requires user.isClient || user.isCompany
    requires RoleLimit(limits, user) > 0 && CountByUser(t, user.id) < RoleLimit(limits, user)
    ensures CanCreateNew(t, limits, user)
  {
  }

  /** With the role's maximum reached, `can_create_new` refuses. */
  lemma LimitReachedRefuses(t: WalletTable, limits: Limits, user: User)
    requires user.isClient || user.isCompany
    requires RoleLimit(limits, user) > 0 && CountByUser(t, user.id) >= RoleLimit(limits, user)
    ensures !CanCreateNew(t, limits, user)
  {
  }

  /** With a role maximum of 0 `can_create_new` always allows. */
  lemma UnlimitedRoleAllows(t: WalletTable, limits: Limits, user: User)
    requires user.isClient || user.isCompany
    requires RoleLimit(limits, user) == 0
    ensures CanCreateNew(t, limits, user)
  {
  }

  /** The balance a transfer leaves on wallet `k`. */
  lemma TransferBalances(t: WalletTable, source: Token, target: Token, amount: int, k: Token)
    requires source in t && target in t
    ensures k in Transfer(t, source, target, amount) <==> k in t
    ensures k in t ==>
              Transfer(t, source, target, amount)[k].balance ==
              t[k].balance - (if k == source then amount else 0) + (if k == target then amount else 0)
    ensures k in t ==> Transfer(t, source, target, amount)[k].token == t[k].token
    ensures k in t ==> Transfer(t, source, target, amount)[k].owner == t[k].owner
  {
  }

  /**
   * A deposit raises that wallet's balance by exactly `amount`, logs exactly
   * one "Deposit" entry for it, leaves every other wallet alone, and keeps the
   * invariant.
   */
  lemma DepositPreservesGood(s: Tables, w: Token, amount: int)
    requires Good(s) && w in s.wallets && amount > 0
    ensures Good(AfterDeposit(s, w, amount))
    ensures AfterDeposit(s, w, amount).wallets[w].balance == s.wallets[w].balance + amount
    ensures forall k :: k in s.wallets && k != w ==> AfterDeposit(s, w, amount).wallets[k] == s.wallets[k]
    ensures AfterDeposit(s, w, amount).wallets.Keys == s.wallets.Keys
    ensures AfterDeposit(s, w, amount).history == s.history + [Entry("Deposit", None, w, amount, |s.history|, true)]
  {
    var r := AfterDeposit(s, w, amount);
    var e := DepositEntry(w, amount, |s.history|);
    forall k | k in r.wallets
      ensures r.wallets[k].balance == Inflow(r.history, k) - Outflow(r.history, k)
    {
      InflowAppend(s.history, e, k);
      OutflowAppend(s.history, e, k);
    }
  }

  /**
   * Every outcome of a charge keeps the invariant: a successful one moves
   * `amount` from the source to the target, an insufficient one only logs, a
   * missing source changes nothing.
   */
  lemma ChargePreservesGood(s: Tables, target: Token, source: Token, amount: int, summary: string)
    requires Good(s) && target in s.wallets && amount > 0
    ensures Good(AfterCharge(s, target, source, amount, summary))
  {
    var r := AfterCharge(s, target, source, amount, summary);
    match ChargeOutcomeOf(s, source, amount)
    case SourceNotFound =>
    case InsufficientFunds =>
      var e := TransferEntry(source, target, summary, amount, |s.history|, false);
      forall k | k in r.wallets
        ensures r.wallets[k].balance == Inflow(r.history, k) - Outflow(r.history, k)
      {
        InflowAppend(s.history, e, k);
        OutflowAppend(s.history, e, k);
      }
    case Charged =>
      var e := TransferEntry(source, target, summary, amount, |s.history|, true);
      forall k | k in r.wallets
        ensures r.wallets[k].token == k
        ensures r.wallets[k].balance >= 0
        ensures r.wallets[k].balance == Inflow(r.history, k) - Outflow(r.history, k)
      {
        TransferBalances(s.wallets, source, target, amount, k);
        InflowAppend(s.history, e, k);
        OutflowAppend(s.history, e, k);
      }
      forall i | 0 <= i < |r.history|
        ensures r.history[i].target in r.wallets
        ensures r.history[i].source.Some? ==> r.history[i].source.value in r.wallets
      {
        if i < |s.history| {
          assert r.history[i] == s.history[i];
        }
      }
  }

  /**
   * A charge from a source holding at least `amount` into another wallet
   * lowers the source and raises the target by exactly `amount`, logs one
   * successful entry and leaves the other wallets alone.
   */
  lemma ChargeMovesMoney(s: Tables, target: Token, source: Token, amount: int, summary: string)
    requires target in s.wallets && source in s.wallets && source != target
    requires s.wallets[source].balance >= amount
    ensures ChargeOutcomeOf(s, source, amount) == Charged
    ensures AfterCharge(s, target, source, amount, summary).wallets[source].balance == s.wallets[source].balance - amount
    ensures AfterCharge(s, target, source, amount, summary).wallets[target].balance == s.wallets[target].balance + amount
    ensures forall k :: k in s.wallets && k != source && k != target ==>
              AfterCharge(s, target, source, amount, summary).wallets[k] == s.wallets[k]
    ensures AfterCharge(s, target, source, amount, summary).history ==
              s.history + [Entry(summary, Some(source), target, amount, |s.history|, true)]
  {
  }

  /**
   * Nothing in the charge path rejects a charge of a wallet to itself: the
   * debit and the credit cancel, and a successful entry is still logged.
   */
  lemma SelfChargeKeepsBalance(s: Tables, w: Token, amount: int, summary: string)
    requires w in s.wallets && s.wallets[w].balance >= amount
    ensures ChargeOutcomeOf(s, w, amount) == Charged
    ensures AfterCharge(s, w, w, amount, summary).wallets == s.wallets
    ensures AfterCharge(s, w, w, amount, summary).history ==
              s.history + [Entry(summary, Some(w), w, amount, |s.history|, true)]
  {
    var t' := AfterCharge(s, w, w, amount, summary).wallets;
    assert t'[w] == s.wallets[w];
    assert t' == s.wallets;
  }

  /**
   * A charge from a source holding less than `amount` changes no balance,
   * logs exactly one failed entry, and reports insufficient funds.
   */
  lemma InsufficientChargeOnlyLogs(s: Tables, target: Token, source: Token, amount: int, summary: string)
    requires target in s.wallets && source in s.wallets && s.wallets[source].balance < amount
    ensures ChargeOutcomeOf(s, source, amount) == InsufficientFunds
    ensures AfterCharge(s, target, source, amount, summary).wallets == s.wallets
    ensures AfterCharge(s, target, source, amount, summary).history ==
              s.history + [Entry(summary, Some(source), target, amount, |s.history|, false)]
  {
  }

  /** A charge whose source token matches no wallet logs nothing and changes nothing. */
  lemma MissingSourceChangesNothing(s: Tables, target: Token, source: Token, amount: int, summary: string)
    requires target in s.wallets && source !in s.wallets
    ensures ChargeOutcomeOf(s, source, amount) == SourceNotFound
    ensures AfterCharge(s, target, source, amount, summary) == s
  {
  }

  /**
   * No double spend: once a charge has taken a source's whole positive
   * balance, a second charge of the same amount from it fails.
   */
  lemma SecondFullChargeFails(s: Tables, target: Token, source: Token, summary: string, summary': string)
    requires target in s.wallets && source in s.wallets && source != target
    requires s.wallets[source].balance > 0
    ensures var b := s.wallets[source].balance;
            var s1 := AfterCharge(s, target, source, b, summary);
            && ChargeOutcomeOf(s, source, b) == Charged
            && s1.wallets[source].balance == 0
            && ChargeOutcomeOf(s1, source, b) == InsufficientFunds
            && AfterCharge(s1, target, source, b, summary').wallets == s1.wallets
  {
    var b := s.wallets[source].balance;
    ChargeMovesMoney(s, target, source, b, summary);
  }

  /** `n` charges of `amount` from `source` into `target`, one after another. */
  function RepeatCharge(s: Tables, target: Token, source: Token, amount: int, summary: string, n: nat): (r: Tables)
    requires target in s.wallets
    ensures r.wallets.Keys == s.wallets.Keys
    decreases n
  {
    if n == 0 then s else RepeatCharge(AfterCharge(s, target, source, amount, summary), target, source, amount, summary, n - 1)
  }

  /** Charges from a source that cannot cover them all fail: each logs one failed row and moves nothing. */
  lemma {:induction false} RepeatedShortChargesFail(s: Tables, target: Token, source: Token, amount: int, summary: string, n: nat)
    requires target in s.wallets && source in s.wallets && s.wallets[source].balance < amount
    ensures var r := RepeatCharge(s, target, source, amount, summary, n);
            && r.wallets == s.wallets
            && |r.history| == |s.history| + n
            && r.history[..|s.history|] == s.history
            && forall i :: |s.history| <= i < |r.history| ==> !r.history[i].success && r.history[i].source == Some(source)
    decreases n
  {
    if n > 0 {
      var s1 := AfterCharge(s, target, source, amount, summary);
      InsufficientChargeOnlyLogs(s, target, source, amount, summary);
      RepeatedShortChargesFail(s1, target, source, amount, summary, n - 1);
      var r := RepeatCharge(s1, target, source, amount, summary, n - 1);
      assert r.history[..|s1.history|] == s1.history;
      forall i | |s.history| <= i < |r.history|
        ensures !r.history[i].success && r.history[i].source == Some(source)
      {
        if i == |s.history| {
          assert r.history[i] == r.history[..|s1.history|][i] == s1.history[i];
        }
      }
      assert r.history[..|s.history|] == s1.history[..|s.history|];
    }
  }

  /**
   * No double spend: `n >= 1` charges, one after another, each of a source's
   * whole positive balance into another wallet give exactly one success (the
   * first) and `n - 1` failures; the source ends at 0 and the target has
   * gained the balance once.
   */
  lemma NoDoubleSpend(s: Tables, target: Token, source: Token, summary: string, n: nat)
    requires target in s.wallets && source in s.wallets && source != target
    requires s.wallets[source].balance > 0 && n >= 1
    ensures var b := s.wallets[source].balance;
            var r := RepeatCharge(s, target, source, b, summary, n);
            && r.wallets[source].balance == 0
            && r.wallets[target].balance == s.wallets[target].balance + b
            && |r.history| == |s.history| + n
            && r.history[..|s.history|] == s.history
            && r.history[|s.history|] == Entry(summary, Some(source), target, b, |s.history|, true)
            && forall i :: |s.history| < i < |r.history| ==> !r.history[i].success
  {
    var b := s.wallets[source].balance;
    var s1 := AfterCharge(s, target, source, b, summary);
    ChargeMovesMoney(s, target, source, b, summary);
    RepeatedShortChargesFail(s1, target, source, b, summary, n - 1);
    var r := RepeatCharge(s1, target, source, b, summary, n - 1);
    assert r == RepeatCharge(s, target, source, b, summary, n);
    assert r.history[..|s1.history|] == s1.history;
    assert r.history[|s.history|] == r.history[..|s1.history|][|s.history|];
    assert r.history[..|s.history|] == s1.history[..|s.history|];
  }

  /** Two deposits leave the same balances in either order. */
  lemma DepositsCommute(s: Tables, v: Token, w: Token, a: int, b: int)
    requires v in s.wallets && w in s.wallets
    ensures AfterDeposit(AfterDeposit(s, v, a), w, b).wallets == AfterDeposit(AfterDeposit(s, w, b), v, a).wallets
    ensures |AfterDeposit(AfterDeposit(s, v, a), w, b).history| == |s.history| + 2
  {
    var t1 := AfterDeposit(AfterDeposit(s, v, a), w, b).wallets;
    var t2 := AfterDeposit(AfterDeposit(s, w, b), v, a).wallets;
    assert forall k :: k in t1 ==> t1[k] == t2[k];
  }

  /**
   * The worked scenario: a wallet X holding 10.00 is charged 15.00 into Y,
   * which fails and changes nothing but logs a failed entry for 15.00; a
   * following charge of 10.00 succeeds, leaves X at 0.00 and raises Y by 10.00.
   */
  lemma ChargeScenario(s: Tables, x: Token, y: Token, summary: string)
    requires Good(s) && x in s.wallets && y in s.wallets && x != y
    requires s.wallets[x].balance == 1000
    ensures var s1 := AfterCharge(s, y, x, 1500, summary);
            var s2 := AfterCharge(s1, y, x, 1000, summary);
            && ChargeOutcomeOf(s, x, 1500) == InsufficientFunds
            && s1.wallets == s.wallets
            && s1.history == s.history + [Entry(summary, Some(x), y, 1500, |s.history|, false)]
            && ChargeOutcomeOf(s1, x, 1000) == Charged
            && s2.wallets[x].balance == 0
            && s2.wallets[y].balance == s.wallets[y].balance + 1000
            && s2.history == s1.history + [Entry(summary, Some(x), y, 1000, |s1.history|, true)]
  {
    InsufficientChargeOnlyLogs(s, y, x, 1500, summary);
    var s1 := AfterCharge(s, y, x, 1500, summary);
    ChargeMovesMoney(s1, y, x, 1000, summary);
  }

  // ---------------------------------------------------------------------------
  // Any sequence of operations

  /**
   * A request reaching the store.  Requests that the layer in front of the
   * store refuses (a deposit into an unknown wallet, a non-positive amount, a
   * charge into an unknown wallet) change nothing.
   */
  datatype Request =
    | CreateWallet(owner: UserId, generated: Token)
    | DepositInto(wallet: Token, amount: int)
    | ChargeFrom(target: Token, source: Token, amount: int, summary: string)

  function Apply(s: Tables, q: Request): (r: Tables)
  {
    match q
    case CreateWallet(owner, generated) => AfterCreate(s, owner, generated)
    case DepositInto(w, amount) =>
      if w in s.wallets && amount > 0 then AfterDeposit(s, w, amount) else s
    case ChargeFrom(target, source, amount, summary) =>
      if target in s.wallets && amount > 0 then AfterCharge(s, target, source, amount, summary) else s
  }

  function Replay(s: Tables, qs: seq<Request>): (r: Tables)
    decreases |qs|
  {
    if qs == [] then s else Replay(Apply(s, qs[0]), qs[1..])
  }

  /** Any sequence of requests applied to tables that satisfy the invariant keeps it. */
  lemma {:induction false} ReplayKeepsGood(s: Tables, qs: seq<Request>)
    requires Good(s)
    ensures Good(Replay(s, qs))
    decreases |qs|
  {
    if qs != [] {
      var q := qs[0];
      match q {
        case CreateWallet(owner, generated) => CreatePreservesGood(s, owner, generated);
        case DepositInto(w, amount) =>
          if w in s.wallets && amount > 0 { DepositPreservesGood(s, w, amount); }
        case ChargeFrom(target, source, amount, summary) =>
          if target in s.wallets && amount > 0 { ChargePreservesGood(s, target, source, amount, summary); }
      }
      ReplayKeepsGood(Apply(s, q), qs[1..]);
    }
  }

  lemma EmptyIsGood()
    ensures Good(Tables(map[], []))
  {
  }

  /**
   * Balance reconciliation: starting from empty tables, after any sequence of
   * requests every balance equals the successful inflow minus the successful
   * outflow recorded for that wallet, and no balance is negative.
   */
  lemma ReplayFromEmptyReconciles(qs: seq<Request>)
    ensures var r := Replay(Tables(map[], []), qs);
            forall k :: k in r.wallets ==>
              r.wallets[k].balance == Inflow(r.history, k) - Outflow(r.history, k) && r.wallets[k].balance >= 0
  {
    EmptyIsGood();
    ReplayKeepsGood(Tables(map[], []), qs);
  }

  /** `get_all_by_user` lists as many wallets as `count_by_user` counts. */
  lemma AllByUserMatchesCount(t: WalletTable, owner: UserId)
    requires WellKeyed(t)
    ensures |GetAllByUser(t, owner)| == CountByUser(t, owner)
  {
    var own := OwnedBy(t, owner);
    var all := GetAllByUser(t, owner);
    assert all == set k | k in own :: t[k];
    TokensOfWallets(all, own, t);
  }

  lemma {:induction false} TokensOfWallets(all: set<Wallet>, own: set<Token>, t: WalletTable)
    requires own <= t.Keys && WellKeyed(t)
    requires all == set k | k in own :: t[k]
    ensures |all| == |own|
    decreases |own|
  {
    if own != {} {
      var k :| k in own;
      var rest := own - {k};
      var restAll := set j | j in rest :: t[j];
      assert all == restAll + {t[k]};
      assert t[k] !in restAll;
      TokensOfWallets(restAll, rest, t);
    }
  }
}
