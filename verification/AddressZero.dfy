/** Leases of a device address for clients that ask address zero: mecomserver/router.go,
    addressZeroSelector.

    Every Lease and every release runs under the selector's lock, so an interleaving of clients is a
    sequence of these two operations.  A release function works once; its state is a token.
  */
module AddressZero {
  import opened Wrappers
  import Wrapping

  /** The client's host; empty when unknown. */
  type Key = string

  datatype RemoteLease = RemoteLease(address: nat, refs: int)

  datatype Token = Token(key: Key, address: nat, released: bool)

  /** `given` lists the addresses handed out by Next, in order; its length is the source's counter. */
  datatype State = State(fixed: nat, order: seq<nat>, given: seq<nat>, leases: map<Key, RemoteLease>,
                         tokens: seq<Token>)

  function NextAddress(s: State): nat {
    if s.fixed != 0 then s.fixed
    else if s.order == [] then 0
    else s.order[Wrapping.Mod(|s.given|, |s.order|)]
  }

  function Given(s: State): State {
    if s.fixed != 0 || s.order == [] then s else s.(given := s.given + [NextAddress(s)])
  }

  predicate Leases(s: State, key: Key) {
    s.fixed == 0 && s.order != [] && key != ""
  }

  function LeasedAddress(s: State, key: Key): nat {
    if Leases(s, key) && key in s.leases then s.leases[key].address else NextAddress(s)
  }

  function AfterLease(s: State, key: Key): State {
    if !Leases(s, key) then Given(s)
    else if key in s.leases then
      s.(leases := s.leases[key := s.leases[key].(refs := s.leases[key].refs + 1)],
         tokens := s.tokens + [Token(key, s.leases[key].address, false)])
    else
      Given(s).(leases := s.leases[key := RemoteLease(NextAddress(s), 1)],
                tokens := s.tokens + [Token(key, NextAddress(s), false)])
  }

  function Unref(leases: map<Key, RemoteLease>, key: Key): map<Key, RemoteLease> {
    if key !in leases then leases
    else if leases[key].refs - 1 <= 0 then leases - {key}
    else leases[key := leases[key].(refs := leases[key].refs - 1)]
  }

  function AfterRelease(s: State, t: nat): State
    requires t < |s.tokens|
  {
    if s.tokens[t].released then s
    else s.(leases := Unref(s.leases, s.tokens[t].key), tokens := s.tokens[t := s.tokens[t].(released := true)])
  }

  /** A lease of `key` that has not been released. */
  predicate Held(token: Token, key: Key) {
    token.key == key && !token.released
  }

  /** Every lease of `key` has been released. */
  ghost predicate Free(tokens: seq<Token>, key: Key) {
    forall t :: 0 <= t < |tokens| && tokens[t].key == key ==> tokens[t].released
  }

  class Selector {
    const fixed: nat
    const order: seq<nat>
    var given: seq<nat>
    var leases: map<Key, RemoteLease>
    var tokens: seq<Token>

    function View(): State
      reads this
    {
      State(fixed, order, given, leases, tokens)
    }

    constructor (fixed: nat, order: seq<nat>)
      ensures View() == State(fixed, order, [], map[], [])
    {
      this.fixed, this.order := fixed, order;
      given, leases, tokens := [], map[], [];
    }

    method Next() returns (address: nat)
      modifies this`given
      ensures address == NextAddress(old(View())) && View() == Given(old(View()))
    {
      if fixed != 0 {
        return fixed;
      }
      if order == [] {
        return 0;
      }
      address := order[Wrapping.Mod(|given|, |order|)];
      given := given + [address];
    }

    /** The address for this client and the token of its release function, if it needs one. */
    method Lease(key: Key) returns (address: nat, token: Option<nat>)
      modifies this`given, this`leases, this`tokens
      ensures View() == AfterLease(old(View()), key) && address == LeasedAddress(old(View()), key)
      ensures token == if Leases(old(View()), key) then Some(|tokens| - 1) else None
      ensures token.Some? <==> fixed == 0 && order != [] && key != ""
      ensures token.Some? ==> tokens == old(tokens) + [Token(key, address, false)] && token.value == |old(tokens)|
      ensures fixed != 0 ==> address == fixed
      ensures fixed == 0 && order == [] ==> address == 0
      ensures Inv(old(View())) ==> Inv(View())
      ensures Inv(old(View())) ==>
                forall t :: 0 <= t < |old(tokens)| && token.Some? && Held(old(tokens)[t], key) ==>
                  address == old(tokens)[t].address
      ensures Inv(old(View())) && fixed == 0 && order != [] && (key == "" || Free(old(tokens), key)) ==>
                address == order[|old(given)| % |order|] && given == old(given) + [address]
    {
      LeaseKeepsIfSound(View(), key);
      if fixed != 0 || order == [] || key == "" {
        address := Next();
        return address, None;
      }
      if key in leases {
        address := leases[key].address;
        leases := leases[key := leases[key].(refs := leases[key].refs + 1)];
      } else {
        address := Next();
        leases := leases[key := RemoteLease(address, 1)];
      }
      tokens := tokens + [Token(key, address, false)];
      token := Some(|tokens| - 1);
    }

    method Release(t: nat)
      requires t < |tokens|
      modifies this`leases, this`tokens
      ensures View() == AfterRelease(old(View()), t)
      ensures tokens == old(tokens)[t := old(tokens)[t].(released := true)] && given == old(given)
      ensures Inv(old(View())) ==> Inv(View()) && (tokens[t].key in leases <==> !Free(tokens, tokens[t].key))
      ensures forall k :: k != tokens[t].key ==>
                (k in leases <==> k in old(leases)) && (k in leases ==> leases[k] == old(leases)[k])
    {
      ReleaseKeepsIfSound(View(), t);
      if tokens[t].released {
        return;
      }
      var key := tokens[t].key;
      tokens := tokens[t := tokens[t].(released := true)];
      if key !in leases {
        return;
      }
      var refs := leases[key].refs - 1;
      if refs <= 0 {
        leases := leases - {key};
      } else {
        leases := leases[key := leases[key].(refs := refs)];
      }
    }
  }

  // ---------- The invariant ----------

  /** The leases of `key` among the first `n` tokens that have not been released. */
  function Outstanding(tokens: seq<Token>, key: Key, n: nat): (c: nat)
    requires n <= |tokens|
  {
    if n == 0 then 0
    else Outstanding(tokens, key, n - 1) + if tokens[n - 1].key == key && !tokens[n - 1].released then 1 else 0
  }

  ghost predicate Inv(s: State) {
    && (forall k :: k in s.leases ==> s.leases[k].refs == Outstanding(s.tokens, k, |s.tokens|) >= 1)
    && (forall t :: 0 <= t < |s.tokens| && !s.tokens[t].released ==>
          s.tokens[t].key in s.leases && s.leases[s.tokens[t].key].address == s.tokens[t].address)
    && (s.order != [] ==>
          forall i :: 0 <= i < |s.given| ==> s.given[i] == s.order[Wrapping.Mod(i, |s.order|)])
  }

  lemma {:induction false} OutstandingPrefix(a: seq<Token>, b: seq<Token>, key: Key, n: nat)
    requires n <= |a| && n <= |b|
    requires forall i :: 0 <= i < n ==> a[i] == b[i] || (a[i].key != key && b[i].key != key)
    ensures Outstanding(a, key, n) == Outstanding(b, key, n)
  {
    if n > 0 {
      OutstandingPrefix(a, b, key, n - 1);
    }
  }

  lemma {:induction false} NoneOutstanding(tokens: seq<Token>, key: Key, n: nat)
    requires n <= |tokens|
    ensures Outstanding(tokens, key, n) > 0 <==> exists i :: 0 <= i < n && tokens[i].key == key && !tokens[i].released
  {
    if n > 0 {
      NoneOutstanding(tokens, key, n - 1);
      if Outstanding(tokens, key, n - 1) == 0 && Outstanding(tokens, key, n) > 0 {
        assert tokens[n - 1].key == key && !tokens[n - 1].released;
      }
    }
  }

  lemma OutstandingAppend(tokens: seq<Token>, token: Token, key: Key)
    requires !token.released
    ensures Outstanding(tokens + [token], key, |tokens| + 1)
         == Outstanding(tokens, key, |tokens|) + if token.key == key then 1 else 0
  {
    OutstandingPrefix(tokens + [token], tokens, key, |tokens|);
  }

  lemma {:induction false} OutstandingReleased(tokens: seq<Token>, t: nat, key: Key, n: nat)
    requires t < |tokens| && !tokens[t].released && n <= |tokens|
    ensures Outstanding(tokens[t := tokens[t].(released := true)], key, n)
         == Outstanding(tokens, key, n) - if t < n && tokens[t].key == key then 1 else 0
  {
    if n > 0 {
      OutstandingReleased(tokens, t, key, n - 1);
    }
  }

  lemma LeaseKeeps(s: State, key: Key)
    requires Inv(s)
    ensures Inv(AfterLease(s, key))
  {
    if Leases(s, key) {
      var v := AfterLease(s, key);
      var token := v.tokens[|s.tokens|];
      if key !in s.leases {
        NoneOutstanding(s.tokens, key, |s.tokens|);
      }
      forall k | k in v.leases ensures v.leases[k].refs == Outstanding(v.tokens, k, |v.tokens|) >= 1 {
        OutstandingAppend(s.tokens, token, k);
      }
    }
  }

  lemma LeaseKeepsIfSound(s: State, key: Key)
    ensures Inv(s) ==> Inv(AfterLease(s, key))
    ensures Inv(s) && key in s.leases ==>
              exists t :: 0 <= t < |s.tokens| && s.tokens[t].key == key && !s.tokens[t].released
    ensures s.order != [] ==> Wrapping.Mod(|s.given|, |s.order|) == |s.given| % |s.order|
  {
    if Inv(s) {
      LeaseKeeps(s, key);
      NoneOutstanding(s.tokens, key, |s.tokens|);
    }
    if s.order != [] { Wrapping.ModIsRemainder(|s.given|, |s.order|); }
  }

  lemma ReleaseKeeps(s: State, t: nat)
    requires Inv(s) && t < |s.tokens|
    ensures Inv(AfterRelease(s, t))
  {
    if !s.tokens[t].released {
      var v, key := AfterRelease(s, t), s.tokens[t].key;
      forall k | k in s.leases
        ensures Outstanding(v.tokens, k, |v.tokens|)
             == Outstanding(s.tokens, k, |s.tokens|) - if k == key then 1 else 0
      {
        OutstandingReleased(s.tokens, t, k, |s.tokens|);
      }
      NoneOutstanding(v.tokens, key, |v.tokens|);
    }
  }

  lemma ReleaseKeepsIfSound(s: State, t: nat)
    requires t < |s.tokens|
    ensures var v, key := AfterRelease(s, t), s.tokens[t].key;
            Inv(s) ==> Inv(v) && (key in v.leases <==> !Free(v.tokens, key))
  {
    if Inv(s) {
      var v, key := AfterRelease(s, t), s.tokens[t].key;
      ReleaseKeeps(s, t);
      NoneOutstanding(v.tokens, key, |v.tokens|);
    }
  }

  // ---------- Every interleaving ----------

  datatype Action = DoLease(key: Key) | DoRelease(token: nat)

  function Step(s: State, a: Action): State {
    match a
    case DoLease(key) => AfterLease(s, key)
    case DoRelease(t) => if t < |s.tokens| then AfterRelease(s, t) else s
  }

  function After(order: seq<nat>, actions: seq<Action>, n: nat): State
    requires n <= |actions|
  {
    if n == 0 then State(0, order, [], map[], []) else Step(After(order, actions, n - 1), actions[n - 1])
  }

  lemma {:induction false} AfterInv(order: seq<nat>, actions: seq<Action>, n: nat)
    requires n <= |actions|
    ensures Inv(After(order, actions, n))
    ensures After(order, actions, n).order == order && After(order, actions, n).fixed == 0
  {
    if n > 0 {
      AfterInv(order, actions, n - 1);
      var s := After(order, actions, n - 1);
      match actions[n - 1]
      case DoLease(key) => LeaseKeeps(s, key);
      case DoRelease(t) => if t < |s.tokens| { ReleaseKeeps(s, t); }
    }
  }

  /** After every interleaving a client has an entry exactly while it holds leases, and the entry counts them. */
  lemma RefsCountLeases(order: seq<nat>, actions: seq<Action>, n: nat, key: Key)
    requires n <= |actions|
    ensures var s := After(order, actions, n);
            && (key in s.leases <==> Outstanding(s.tokens, key, |s.tokens|) > 0)
            && (key in s.leases ==> s.leases[key].refs == Outstanding(s.tokens, key, |s.tokens|))
  {
    AfterInv(order, actions, n);
    var s := After(order, actions, n);
    NoneOutstanding(s.tokens, key, |s.tokens|);
  }

  /** All leases a client holds at one time are for the same address. */
  lemma ConcurrentLeasesShare(order: seq<nat>, actions: seq<Action>, n: nat, t: nat, u: nat)
    requires n <= |actions|
    requires var s := After(order, actions, n);
             && t < |s.tokens| && u < |s.tokens| && s.tokens[t].key == s.tokens[u].key
             && !s.tokens[t].released && !s.tokens[u].released
    ensures var s := After(order, actions, n); s.tokens[t].address == s.tokens[u].address
  {
    AfterInv(order, actions, n);
  }

  /** Fresh assignments follow the configured order cyclically. */
  lemma AssignmentsCycle(order: seq<nat>, actions: seq<Action>, n: nat, i: nat)
    requires order != [] && n <= |actions| && i < |After(order, actions, n).given|
    ensures After(order, actions, n).given[i] == order[i % |order|]
  {
    AfterInv(order, actions, n);
    Wrapping.ModIsRemainder(i, |order|);
  }
}
