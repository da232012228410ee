/**
 * Per-account, per-currency balances as the exchange service changes them.
 *
 * The account service's `updateAccountBalance` is not part of this model; it is
 * modelled by `Credit`: add a signed amount to the (account, currency) entry,
 * a missing entry counting as 0. A `Posting` is one such call, and `Apply`
 * runs a sequence of them in order.
 */
module AccountBalance {
  import opened CommonType

  type BalanceKey = (AccountSeq, Currency)

  type Balances = map<BalanceKey, real>

  /** One balance change: `amount` added to `currency` of `account`. */
  datatype Posting = Posting(account: AccountSeq, currency: Currency, amount: real) {
    function Key(): BalanceKey { (account, currency) }
  }

  /** The balance held for a key; an account never credited in a currency holds 0 of it. */
  function BalanceOf(bal: Balances, k: BalanceKey): real {
    if k in bal then bal[k] else 0.0
  }

  /** The keys a sequence of postings touches. */
  function Touched(ps: seq<Posting>): set<BalanceKey> {
    set p | p in ps :: p.Key()
  }

  /** One `updateAccountBalance` call: the posting's entry moves by its amount, every other entry is left as it was. */
  function Credit(bal: Balances, p: Posting): (r: Balances)
    ensures p.Key() in r && BalanceOf(r, p.Key()) == BalanceOf(bal, p.Key()) + p.amount
    ensures forall k :: k != p.Key() ==> BalanceOf(r, k) == BalanceOf(bal, k)
  {
    bal[p.Key() := BalanceOf(bal, p.Key()) + p.amount]
  }

  /** The postings run one after another, as the successive awaited calls do. */
  function Apply(bal: Balances, ps: seq<Posting>): Balances
    decreases |ps|
  {
    if ps == [] then bal else Apply(Credit(bal, ps[0]), ps[1..])
  }

  /** The net amount a sequence of postings moves one key by. */
  function Net(ps: seq<Posting>, k: BalanceKey): real
    decreases |ps|
  {
    if ps == [] then 0.0
    else (if ps[0].Key() == k then ps[0].amount else 0.0) + Net(ps[1..], k)
  }

  /** The same postings with every amount negated, in the same order. */
  function Negated(ps: seq<Posting>): (r: seq<Posting>)
    ensures |r| == |ps|
    ensures forall i :: 0 <= i < |ps| ==> r[i] == ps[i].(amount := -ps[i].amount)
    decreases |ps|
  {
    if ps == [] then []
    else [ps[0].(amount := -ps[0].amount)] + Negated(ps[1..])
  }

  /** Applying postings moves each balance by exactly their net amount on it, whatever the order and repetitions. */
  lemma {:induction false} ApplyAt(bal: Balances, ps: seq<Posting>, k: BalanceKey)
    ensures BalanceOf(Apply(bal, ps), k) == BalanceOf(bal, k) + Net(ps, k)
    decreases |ps|
  {
    if ps != [] {
      ApplyAt(Credit(bal, ps[0]), ps[1..], k);
    }
  }

  /** Negating the postings negates their net effect on every key. */
  lemma {:induction false} NetNegated(ps: seq<Posting>, k: BalanceKey)
    ensures Net(Negated(ps), k) == -Net(ps, k)
    decreases |ps|
  {
    if ps != [] {
      NetNegated(ps[1..], k);
      assert Negated(ps)[1..] == Negated(ps[1..]);
    }
  }

  /** Reversal law: applying postings and then their negation leaves every balance as it was. */
  lemma ApplyThenUndo(bal: Balances, ps: seq<Posting>, k: BalanceKey)
    ensures BalanceOf(Apply(Apply(bal, ps), Negated(ps)), k) == BalanceOf(bal, k)
  {
    ApplyAt(bal, ps, k);
    ApplyAt(Apply(bal, ps), Negated(ps), k);
    NetNegated(ps, k);
  }

  /** Only the touched keys appear or change; every other entry is kept as it was. */
  lemma {:induction false} ApplyFrame(bal: Balances, ps: seq<Posting>)
    ensures Apply(bal, ps).Keys == bal.Keys + Touched(ps)
    ensures forall k :: k in bal && k !in Touched(ps) ==> Apply(bal, ps)[k] == bal[k]
    decreases |ps|
  {
    if ps != [] {
      ApplyFrame(Credit(bal, ps[0]), ps[1..]);
      assert Touched(ps) == {ps[0].Key()} + Touched(ps[1..]) by {
        assert forall p :: p in ps <==> p == ps[0] || p in ps[1..];
      }
    }
  }

  /** Three postings, the shape of every balance update of an exchange, run as three successive credits. */
  lemma ApplyThree(bal: Balances, p: Posting, q: Posting, s: Posting)
    ensures Apply(bal, [p, q, s]) == Credit(Credit(Credit(bal, p), q), s)
  {
    assert [p, q, s][1..] == [q, s];
    assert [q, s][1..] == [s];
    assert [s][1..] == [];
    assert Apply(bal, [p, q, s]) == Apply(Credit(bal, p), [q, s]);
    assert Apply(Credit(bal, p), [q, s]) == Apply(Credit(Credit(bal, p), q), [s]);
    assert Apply(Credit(Credit(bal, p), q), [s]) == Apply(Credit(Credit(Credit(bal, p), q), s), []);
  }

  /** The net amount of three postings on a key, each counted where its key matches. */
  lemma NetThree(p: Posting, q: Posting, s: Posting, k: BalanceKey)
    ensures Net([p, q, s], k) == (if p.Key() == k then p.amount else 0.0)
                                 + (if q.Key() == k then q.amount else 0.0)
                                 + (if s.Key() == k then s.amount else 0.0)
  {
    assert [p, q, s][1..] == [q, s];
    assert [q, s][1..] == [s];
    assert [s][1..] == [];
    assert Net([p, q, s], k) == (if p.Key() == k then p.amount else 0.0) + Net([q, s], k);
    assert Net([q, s], k) == (if q.Key() == k then q.amount else 0.0) + Net([s], k);
  }

  /** The keys three postings touch. */
  lemma TouchedThree(p: Posting, q: Posting, s: Posting)
    ensures Touched([p, q, s]) == {p.Key(), q.Key(), s.Key()}
  {
  }
}
