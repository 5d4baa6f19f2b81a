/**
 * The crediting loop of core_service/src/core_service_libevent.cpp (lines 126-165): for each position of
 * the address list, the first device of that address that still has something to give is credited.
 *
 * The response is a map from addresses to their devices in the order in which the source's map iterates
 * (by device id). The totals are 32-bit unsigned numbers that 64-bit amounts are added to.
 *
 * Main results: CreditsAreUnique and CreditsAreDue about the credits given, PassedOverHadNothing about
 * those not given, FirstWithSomethingLeftGetsAll about exactly which are given; the contract of CreditAll,
 * which ties the published totals to the credits; and PublishedIsExact and LargeAmountsAreLost about when
 * these totals are the exact sums.
 */
module RewardAttribution {
  type Name = string

  /** A device and what the response says about it. */
  datatype Device = Device(hwid: Name, ip: nat, online: nat, tickets: nat)

  datatype Position = Position(address: Name, balance: nat)

  type Response = map<Name, seq<Device>>

  const MHC: nat := 1000 * 1000

  const TICKET_BALANCE: nat := 1000 * MHC

  const TWO_TO_32: nat := 0x1_0000_0000

  /** What was counted already. */
  datatype Seen = Seen(ips: set<nat>, online: set<Name>, ticket: set<Name>)

  datatype Kind = Online | Tickets

  /** One credit: the position that got it, the device it is for, and the amount. */
  datatype Credit = Credit(kind: Kind, position: nat, address: Name, device: Device, amount: nat)

  // ---------------------------------------------------------------- one device

  predicate GivesOnline(d: Device, s: Seen) {
    d.online > 0 && d.hwid !in s.online && (d.ip == 0 || d.ip !in s.ips)
  }

  predicate GivesTickets(d: Device, balance: nat, s: Seen) {
    balance >= TICKET_BALANCE && d.tickets > 0 && d.hwid !in s.ticket
  }

  predicate Gives(d: Device, balance: nat, s: Seen) {
    GivesOnline(d, s) || GivesTickets(d, balance, s)
  }

  function Given(d: Device, p: Position, k: nat, s: Seen): seq<Credit> {
    (if GivesOnline(d, s) then [Credit(Online, k, p.address, d, d.online)] else []) +
    (if GivesTickets(d, p.balance, s) then [Credit(Tickets, k, p.address, d, d.tickets)] else [])
  }

  function Counted(d: Device, balance: nat, s: Seen): Seen {
    Seen(
      if GivesOnline(d, s) && d.ip != 0 then s.ips + {d.ip} else s.ips,
      if GivesOnline(d, s) then s.online + {d.hwid} else s.online,
      if GivesTickets(d, balance, s) then s.ticket + {d.hwid} else s.ticket)
  }

  // ---------------------------------------------------------------- all positions

  function DevicesOf(r: Response, address: Name): seq<Device> {
    if address in r then r[address] else []
  }

  /** The first device, from the `j`-th on, that gives something; their number when none does. */
  function FirstGiver(ds: seq<Device>, j: nat, balance: nat, s: Seen): (g: nat)
    requires j <= |ds|
    ensures j <= g <= |ds|
    ensures g < |ds| ==> Gives(ds[g], balance, s)
    ensures forall i :: j <= i < g ==> !Gives(ds[i], balance, s)
    decreases |ds| - j
  {
    if j == |ds| || Gives(ds[j], balance, s) then j else FirstGiver(ds, j + 1, balance, s)
  }

  datatype Ledger = Ledger(seen: Seen, credits: seq<Credit>)

  function AtPosition(l: Ledger, p: Position, k: nat, r: Response): Ledger {
    var ds := DevicesOf(r, p.address);
    var g := FirstGiver(ds, 0, p.balance, l.seen);
    if g == |ds| then l
    else Ledger(Counted(ds[g], p.balance, l.seen), l.credits + Given(ds[g], p, k, l.seen))
  }

  /** The ledger after the first `k` positions. */
  function LedgerOf(ps: seq<Position>, k: nat, r: Response): Ledger
    requires k <= |ps|
  {
    if k == 0 then Ledger(Seen({}, {}, {}), []) else AtPosition(LedgerOf(ps, k - 1, r), ps[k - 1], k - 1, r)
  }

  function Credits(ps: seq<Position>, r: Response): seq<Credit> {
    LedgerOf(ps, |ps|, r).credits
  }

  // ---------------------------------------------------------------- uniqueness

  /** Two credits that may stand in one ledger. */
  predicate Apart(c: Credit, d: Credit) {
    && (c.kind == d.kind ==> c.device.hwid != d.device.hwid)
    && (c.kind == d.kind == Online && c.device.ip != 0 ==> c.device.ip != d.device.ip)
    && (c.position == d.position ==> c.device == d.device)
  }

  /** What was counted is what the credits say. */
  predicate CountedIn(c: Credit, s: Seen) {
    && (c.kind == Online ==> c.device.hwid in s.online && (c.device.ip != 0 ==> c.device.ip in s.ips))
    && (c.kind == Tickets ==> c.device.hwid in s.ticket)
  }

  /** A credit is due to its position. */
  predicate Due(c: Credit, ps: seq<Position>, r: Response) {
    && c.position < |ps| && c.address == ps[c.position].address
    && c.device in DevicesOf(r, c.address)
    && c.amount > 0
    && (c.kind == Online ==> c.amount == c.device.online)
    && (c.kind == Tickets ==> c.amount == c.device.tickets && ps[c.position].balance >= TICKET_BALANCE)
  }

  predicate LedgerOk(l: Ledger, ps: seq<Position>, k: nat, r: Response) {
    && (forall i :: 0 <= i < |l.credits| ==>
          CountedIn(l.credits[i], l.seen) && Due(l.credits[i], ps, r) && l.credits[i].position < k)
    && forall i, j :: 0 <= i < j < |l.credits| ==> Apart(l.credits[i], l.credits[j])
  }

  lemma PositionKeepsLedger(l: Ledger, ps: seq<Position>, k: nat, r: Response)
    requires k < |ps| && LedgerOk(l, ps, k, r)
    ensures LedgerOk(AtPosition(l, ps[k], k, r), ps, k + 1, r)
  {
    var p := ps[k];
    var ds := DevicesOf(r, p.address);
    var g := FirstGiver(ds, 0, p.balance, l.seen);
    var l' := AtPosition(l, p, k, r);
    if g < |ds| {
      var given := Given(ds[g], p, k, l.seen);
      assert l'.credits == l.credits + given;
      forall i | 0 <= i < |l'.credits|
        ensures CountedIn(l'.credits[i], l'.seen) && Due(l'.credits[i], ps, r) && l'.credits[i].position < k + 1
      {
        if i < |l.credits| {
          assert CountedIn(l.credits[i], l.seen) && Due(l.credits[i], ps, r);
        } else {
          assert l'.credits[i] == given[i - |l.credits|];
          assert ds[g] in ds;
        }
      }
      forall i, j | 0 <= i < j < |l'.credits|
        ensures Apart(l'.credits[i], l'.credits[j])
      {
        if j < |l.credits| {
          assert Apart(l.credits[i], l.credits[j]);
        } else {
          assert l'.credits[j] == given[j - |l.credits|];
          if i < |l.credits| {
            assert CountedIn(l.credits[i], l.seen) && l.credits[i].position < k;
          } else {
            assert l'.credits[i] == given[i - |l.credits|];
          }
        }
      }
    }
  }

  lemma {:induction false} LedgerIsOk(ps: seq<Position>, k: nat, r: Response)
    requires k <= |ps|
    ensures LedgerOk(LedgerOf(ps, k, r), ps, k, r)
  {
    if k > 0 {
      hide LedgerOk, AtPosition;
      LedgerIsOk(ps, k - 1, r);
      PositionKeepsLedger(LedgerOf(ps, k - 1, r), ps, k - 1, r);
    }
  }

  /**
   * Main result: no device is credited twice for being online or twice with tickets, no known ip twice
   * for being online, and no list position for two devices.
   */
  lemma CreditsAreUnique(ps: seq<Position>, r: Response, i: nat, j: nat)
    requires i < j < |Credits(ps, r)|
    ensures var c, d := Credits(ps, r)[i], Credits(ps, r)[j];
            && (c.kind == d.kind ==> c.device.hwid != d.device.hwid)
            && (c.kind == d.kind == Online && c.device.ip != 0 ==> c.device.ip != d.device.ip)
            && (c.position == d.position ==> c.device == d.device)
  {
    LedgerIsOk(ps, |ps|, r);
    assert Apart(Credits(ps, r)[i], Credits(ps, r)[j]);
  }

  /**
   * Main result: every credit goes to the address of its position, for a device of that address, with
   * the amount the response states; tickets only where the balance is at least 1000 MHC.
   */
  lemma CreditsAreDue(ps: seq<Position>, r: Response, i: nat)
    requires i < |Credits(ps, r)|
    ensures Due(Credits(ps, r)[i], ps, r)
  {
    LedgerIsOk(ps, |ps|, r);
  }

  // ---------------------------------------------------------------- nobody is passed over

  predicate HasCredit(cs: seq<Credit>, kind: Kind, hwid: Name) {
    exists i :: 0 <= i < |cs| && cs[i].kind == kind && cs[i].device.hwid == hwid
  }

  predicate HasIp(cs: seq<Credit>, ip: nat) {
    exists i :: 0 <= i < |cs| && cs[i].kind == Online && cs[i].device.ip == ip
  }

  predicate HasPosition(cs: seq<Credit>, k: nat) {
    exists i :: 0 <= i < |cs| && cs[i].position == k
  }

  /** Only what was credited is counted. */
  predicate SeenOnlyCredited(l: Ledger) {
    && (forall h :: h in l.seen.online ==> HasCredit(l.credits, Online, h))
    && (forall h :: h in l.seen.ticket ==> HasCredit(l.credits, Tickets, h))
    && (forall ip :: ip in l.seen.ips ==> HasIp(l.credits, ip))
  }

  lemma HasStays(cs: seq<Credit>, more: seq<Credit>)
    ensures forall kind, h :: HasCredit(cs, kind, h) ==> HasCredit(cs + more, kind, h)
    ensures forall ip :: HasIp(cs, ip) ==> HasIp(cs + more, ip)
    ensures forall k :: HasPosition(cs, k) ==> HasPosition(cs + more, k)
  {
    forall kind, h | HasCredit(cs, kind, h) ensures HasCredit(cs + more, kind, h) {
      var i :| 0 <= i < |cs| && cs[i].kind == kind && cs[i].device.hwid == h;
      assert (cs + more)[i] == cs[i];
    }
    forall ip | HasIp(cs, ip) ensures HasIp(cs + more, ip) {
      var i :| 0 <= i < |cs| && cs[i].kind == Online && cs[i].device.ip == ip;
      assert (cs + more)[i] == cs[i];
    }
    forall k | HasPosition(cs, k) ensures HasPosition(cs + more, k) {
      var i :| 0 <= i < |cs| && cs[i].position == k;
      assert (cs + more)[i] == cs[i];
    }
  }

  lemma GivenIsThere(cs: seq<Credit>, d: Device, p: Position, k: nat, s: Seen)
    requires Gives(d, p.balance, s)
    ensures var all := cs + Given(d, p, k, s);
            && HasPosition(all, k)
            && (GivesOnline(d, s) ==> HasCredit(all, Online, d.hwid) && HasIp(all, d.ip))
            && (GivesTickets(d, p.balance, s) ==> HasCredit(all, Tickets, d.hwid))
  {
    var all := cs + Given(d, p, k, s);
    if GivesOnline(d, s) {
      assert all[|cs|] == Credit(Online, k, p.address, d, d.online);
    }
    if GivesTickets(d, p.balance, s) {
      assert all[|all| - 1] == Credit(Tickets, k, p.address, d, d.tickets);
    }
  }

  lemma PositionSeesCredited(l: Ledger, p: Position, k: nat, r: Response)
    requires SeenOnlyCredited(l)
    ensures SeenOnlyCredited(AtPosition(l, p, k, r))
  {
    hide HasCredit, HasIp, HasPosition;
    var ds := DevicesOf(r, p.address);
    var g := FirstGiver(ds, 0, p.balance, l.seen);
    if g < |ds| {
      HasStays(l.credits, Given(ds[g], p, k, l.seen));
      GivenIsThere(l.credits, ds[g], p, k, l.seen);
    }
  }

  lemma {:induction false} LedgerSeesCredited(ps: seq<Position>, k: nat, r: Response)
    requires k <= |ps|
    ensures SeenOnlyCredited(LedgerOf(ps, k, r))
  {
    if k > 0 {
      LedgerSeesCredited(ps, k - 1, r);
      PositionSeesCredited(LedgerOf(ps, k - 1, r), ps[k - 1], k - 1, r);
    }
  }

  /** What comes after the first `k` positions goes to later ones. */
  lemma {:induction false} LaterPositions(ps: seq<Position>, k: nat, m: nat, r: Response)
    requires k <= m <= |ps|
    ensures LedgerOf(ps, k, r).credits <= LedgerOf(ps, m, r).credits
    ensures forall i :: |LedgerOf(ps, k, r).credits| <= i < |LedgerOf(ps, m, r).credits| ==>
              LedgerOf(ps, m, r).credits[i].position >= k
    decreases m - k
  {
    if k < m {
      LaterPositions(ps, k, m - 1, r);
    }
  }

  /** What the first `k` positions were credited stays credited. */
  lemma PrefixStays(ps: seq<Position>, k: nat, r: Response)
    requires k <= |ps|
    ensures var before, all := LedgerOf(ps, k, r).credits, Credits(ps, r);
            && (forall kind, h :: HasCredit(before, kind, h) ==> HasCredit(all, kind, h))
            && (forall ip :: HasIp(before, ip) ==> HasIp(all, ip))
            && (forall m :: HasPosition(before, m) ==> HasPosition(all, m))
  {
    hide HasCredit, HasIp, HasPosition, LedgerOf;
    var before, all := LedgerOf(ps, k, r).credits, Credits(ps, r);
    LaterPositions(ps, k, |ps|, r);
    HasStays(before, all[|before|..]);
    assert all == before + all[|before|..];
  }

  lemma GiverGetsPosition(ps: seq<Position>, k: nat, r: Response)
    requires k < |ps| && !HasPosition(Credits(ps, r), k)
    ensures var ds := DevicesOf(r, ps[k].address);
            forall j :: 0 <= j < |ds| ==> !Gives(ds[j], ps[k].balance, LedgerOf(ps, k, r).seen)
  {
    var before := LedgerOf(ps, k, r);
    var ds := DevicesOf(r, ps[k].address);
    var g := FirstGiver(ds, 0, ps[k].balance, before.seen);
    PrefixStays(ps, k + 1, r);
    if g < |ds| {
      GivenIsThere(before.credits, ds[g], ps[k], k, before.seen);
    }
  }

  /**
   * Main result: a position that got nothing had no device with anything left to give: each was
   * credited for being online already, or its ip was, or it was not online; and each was credited with
   * tickets already, or had none, or the balance was too low.
   */
  lemma PassedOverHadNothing(ps: seq<Position>, k: nat, r: Response, d: Device)
    requires k < |ps| && !HasPosition(Credits(ps, r), k) && d in DevicesOf(r, ps[k].address)
    ensures d.online == 0 || HasCredit(Credits(ps, r), Online, d.hwid) || (d.ip != 0 && HasIp(Credits(ps, r), d.ip))
    ensures d.tickets == 0 || ps[k].balance < TICKET_BALANCE || HasCredit(Credits(ps, r), Tickets, d.hwid)
  {
    GiverGetsPosition(ps, k, r);
    LedgerSeesCredited(ps, k, r);
    PrefixStays(ps, k, r);
    hide HasCredit, HasIp, HasPosition, LedgerOf, Credits;
    var ds := DevicesOf(r, ps[k].address);
    var j :| 0 <= j < |ds| && ds[j] == d;
    assert !Gives(ds[j], ps[k].balance, LedgerOf(ps, k, r).seen);
  }

  // ---------------------------------------------------------------- the credits, exactly

  /** A credit of this kind was given for the device at an earlier position. */
  predicate CreditedBefore(cs: seq<Credit>, k: nat, kind: Kind, hwid: Name) {
    exists i :: 0 <= i < |cs| && cs[i].position < k && cs[i].kind == kind && cs[i].device.hwid == hwid
  }

  predicate IpBefore(cs: seq<Credit>, k: nat, ip: nat) {
    exists i :: 0 <= i < |cs| && cs[i].position < k && cs[i].kind == Online && cs[i].device.ip == ip
  }

  /** At position `k` the device can still be credited for being online. */
  predicate OnlineLeft(ps: seq<Position>, r: Response, k: nat, d: Device) {
    && d.online > 0 && !CreditedBefore(Credits(ps, r), k, Online, d.hwid)
    && (d.ip == 0 || !IpBefore(Credits(ps, r), k, d.ip))
  }

  predicate TicketsLeft(ps: seq<Position>, r: Response, k: nat, d: Device)
    requires k < |ps|
  {
    ps[k].balance >= 1_000_000_000 && d.tickets > 0 && !CreditedBefore(Credits(ps, r), k, Tickets, d.hwid)
  }

  /** The credits of one position, in the order in which they were given. */
  function CreditsAt(cs: seq<Credit>, k: nat): seq<Credit> {
    if cs == [] then []
    else CreditsAt(cs[..|cs| - 1], k) + if cs[|cs| - 1].position == k then [cs[|cs| - 1]] else []
  }

  lemma {:induction false} CreditsAtAppend(a: seq<Credit>, b: seq<Credit>, k: nat)
    ensures CreditsAt(a + b, k) == CreditsAt(a, k) + CreditsAt(b, k)
    decreases |b|
  {
    if b == [] {
      assert a + b == a;
    } else {
      assert (a + b)[..|a + b| - 1] == a + b[..|b| - 1];
      CreditsAtAppend(a, b[..|b| - 1], k);
    }
  }

  lemma {:induction false} CreditsElsewhere(cs: seq<Credit>, k: nat)
    requires forall i :: 0 <= i < |cs| ==> cs[i].position != k
    ensures CreditsAt(cs, k) == []
    decreases |cs|
  {
    if cs != [] {
      CreditsElsewhere(cs[..|cs| - 1], k);
    }
  }

  lemma {:induction false} CreditsHere(cs: seq<Credit>, k: nat)
    requires forall i :: 0 <= i < |cs| ==> cs[i].position == k
    ensures CreditsAt(cs, k) == cs
    decreases |cs|
  {
    if cs != [] {
      CreditsHere(cs[..|cs| - 1], k);
    }
  }

  lemma EarlierPositions(ps: seq<Position>, k: nat, r: Response)
    requires k <= |ps|
    ensures forall i :: 0 <= i < |LedgerOf(ps, k, r).credits| ==> LedgerOf(ps, k, r).credits[i].position < k
  {
    LedgerIsOk(ps, k, r);
    hide LedgerOf;
  }

  lemma HasCreditIsBefore(ps: seq<Position>, k: nat, r: Response, kind: Kind, h: Name)
    requires k <= |ps|
    ensures HasCredit(LedgerOf(ps, k, r).credits, kind, h) <==> CreditedBefore(Credits(ps, r), k, kind, h)
  {
    LaterPositions(ps, k, |ps|, r);
    EarlierPositions(ps, k, r);
    hide LedgerOf;
    var before, all := LedgerOf(ps, k, r).credits, Credits(ps, r);
    assert forall i :: 0 <= i < |before| ==> before[i] == all[i];
  }

  lemma HasIpIsBefore(ps: seq<Position>, k: nat, r: Response, ip: nat)
    requires k <= |ps|
    ensures HasIp(LedgerOf(ps, k, r).credits, ip) <==> IpBefore(Credits(ps, r), k, ip)
  {
    LaterPositions(ps, k, |ps|, r);
    EarlierPositions(ps, k, r);
    hide LedgerOf;
    var before, all := LedgerOf(ps, k, r).credits, Credits(ps, r);
    assert forall i :: 0 <= i < |before| ==> before[i] == all[i];
  }

  /** What was counted before position `k` is what was credited before it. */
  lemma SeenIsCredited(ps: seq<Position>, k: nat, r: Response, d: Device)
    requires k < |ps|
    ensures GivesOnline(d, LedgerOf(ps, k, r).seen) <==> OnlineLeft(ps, r, k, d)
    ensures GivesTickets(d, ps[k].balance, LedgerOf(ps, k, r).seen) <==> TicketsLeft(ps, r, k, d)
  {
    LedgerIsOk(ps, k, r);
    LedgerSeesCredited(ps, k, r);
    HasCreditIsBefore(ps, k, r, Online, d.hwid);
    HasCreditIsBefore(ps, k, r, Tickets, d.hwid);
    HasIpIsBefore(ps, k, r, d.ip);
    hide LedgerOf, CreditedBefore, IpBefore, Credits;
  }

  lemma CreditsAtPosition(ps: seq<Position>, k: nat, r: Response)
    requires k < |ps|
    ensures LedgerOf(ps, k, r).credits <= LedgerOf(ps, k + 1, r).credits
    ensures CreditsAt(Credits(ps, r), k)
         == LedgerOf(ps, k + 1, r).credits[|LedgerOf(ps, k, r).credits|..]
  {
    LaterPositions(ps, k, k + 1, r);
    LaterPositions(ps, k + 1, |ps|, r);
    EarlierPositions(ps, k, r);
    EarlierPositions(ps, k + 1, r);
    hide LedgerOf;
    MiddleCredits(LedgerOf(ps, k, r).credits, LedgerOf(ps, k + 1, r).credits, Credits(ps, r), k);
  }

  lemma MiddleCredits(before: seq<Credit>, next: seq<Credit>, all: seq<Credit>, k: nat)
    requires before <= next <= all
    requires forall i :: 0 <= i < |before| ==> before[i].position < k
    requires forall i :: |before| <= i < |next| ==> next[i].position == k
    requires forall i :: |next| <= i < |all| ==> all[i].position > k
    ensures CreditsAt(all, k) == next[|before|..]
  {
    hide CreditsAt;
    var here, after := next[|before|..], all[|next|..];
    CreditsElsewhere(before, k);
    CreditsElsewhere(after, k);
    CreditsHere(here, k);
    CreditsAtAppend(before, here, k);
    CreditsAtAppend(next, after, k);
    assert next == before + here && all == next + after;
  }

  lemma GivenNext(ps: seq<Position>, k: nat, r: Response)
    requires k < |ps|
    ensures var l, ds := LedgerOf(ps, k, r), DevicesOf(r, ps[k].address);
            var g := FirstGiver(ds, 0, ps[k].balance, l.seen);
            LedgerOf(ps, k + 1, r).credits == l.credits + if g == |ds| then [] else Given(ds[g], ps[k], k, l.seen)
  {
    hide FirstGiver, Given;
  }

  /**
   * Main result: at each position the first device of the address that has something left gets all that it has left,
   * the credit for being online before the one for tickets, and the others get nothing.
   */
  lemma FirstWithSomethingLeftGetsAll(ps: seq<Position>, r: Response, k: nat, j: nat)
    requires k < |ps| && j <= |DevicesOf(r, ps[k].address)|
    requires forall i :: 0 <= i < j ==> var d := DevicesOf(r, ps[k].address)[i];
               !OnlineLeft(ps, r, k, d) && !TicketsLeft(ps, r, k, d)
    requires j < |DevicesOf(r, ps[k].address)| ==>
               var d := DevicesOf(r, ps[k].address)[j]; OnlineLeft(ps, r, k, d) || TicketsLeft(ps, r, k, d)
    ensures j == |DevicesOf(r, ps[k].address)| ==> CreditsAt(Credits(ps, r), k) == []
    ensures j < |DevicesOf(r, ps[k].address)| ==>
              var a, d := ps[k].address, DevicesOf(r, ps[k].address)[j];
              CreditsAt(Credits(ps, r), k)
                == (if OnlineLeft(ps, r, k, d) then [Credit(Online, k, a, d, d.online)] else [])
                   + (if TicketsLeft(ps, r, k, d) then [Credit(Tickets, k, a, d, d.tickets)] else [])
  {
    hide LedgerOf, OnlineLeft, TicketsLeft, CreditsAt, Credits, FirstGiver;
    var l, ds := LedgerOf(ps, k, r), DevicesOf(r, ps[k].address);
    CreditsAtPosition(ps, k, r);
    GivenNext(ps, k, r);
    forall i | 0 <= i < |ds|
      ensures Gives(ds[i], ps[k].balance, l.seen) <==> OnlineLeft(ps, r, k, ds[i]) || TicketsLeft(ps, r, k, ds[i])
    {
      SeenIsCredited(ps, k, r, ds[i]);
    }
    var g := FirstGiver(ds, 0, ps[k].balance, l.seen);
    assert g == j;
    if j < |ds| {
      SeenIsCredited(ps, k, r, ds[j]);
    }
  }

  // ---------------------------------------------------------------- totals

  /** The exact sum of the credits of one kind to an address. */
  function Total(cs: seq<Credit>, address: Name, kind: Kind): nat {
    if cs == [] then 0
    else
      var last := cs[|cs| - 1];
      Total(cs[..|cs| - 1], address, kind) + if last.address == address && last.kind == kind then last.amount else 0
  }

  function AddressesOf(cs: seq<Credit>): set<Name> {
    set i | 0 <= i < |cs| :: cs[i].address
  }

  type Totals = map<Name, (nat, nat)>

  /** The published totals: sums in 32 bits, for the addresses that got a credit. */
  function Published(cs: seq<Credit>): Totals {
    map a | a in AddressesOf(cs) :: (Total(cs, a, Online) % TWO_TO_32, Total(cs, a, Tickets) % TWO_TO_32)
  }

  lemma AddModulo(a: nat, b: nat)
    ensures (a % TWO_TO_32 + b) % TWO_TO_32 == (a + b) % TWO_TO_32
  {
  }

  lemma TotalNext(cs: seq<Credit>, c: Credit, a: Name, kind: Kind)
    ensures Total(cs + [c], a, kind)
         == Total(cs, a, kind) + if c.address == a && c.kind == kind then c.amount else 0
  {
    assert (cs + [c])[..|cs|] == cs;
  }

  lemma AddressesNext(cs: seq<Credit>, c: Credit)
    ensures AddressesOf(cs + [c]) == AddressesOf(cs) + {c.address}
  {
    var cs' := cs + [c];
    forall a ensures a in AddressesOf(cs') <==> a in AddressesOf(cs) + {c.address} {
      if a in AddressesOf(cs) {
        var i :| 0 <= i < |cs| && cs[i].address == a;
        assert cs'[i].address == a;
      }
      assert cs'[|cs|] == c;
    }
  }

  /** Adding an amount to one entry publishes one more credit. */
  lemma OneMorePublished(cs: seq<Credit>, c: Credit)
    ensures var before := if c.address in Published(cs) then Published(cs)[c.address] else (0, 0);
            Published(cs + [c]) ==
            Published(cs)[c.address :=
              if c.kind == Online then ((before.0 + c.amount) % TWO_TO_32, before.1)
              else (before.0, (before.1 + c.amount) % TWO_TO_32)]
  {
    hide Total, AddressesOf;
    AddressesNext(cs, c);
    if c.address !in AddressesOf(cs) {
      NoTotal(cs, c.address, Online);
      NoTotal(cs, c.address, Tickets);
    }
    forall a, kind
      ensures Total(cs + [c], a, kind) == Total(cs, a, kind) + if c.address == a && c.kind == kind then c.amount else 0
    {
      TotalNext(cs, c, a, kind);
    }
    AddModulo(Total(cs, c.address, c.kind), c.amount);
  }

  lemma {:induction false} NoTotal(cs: seq<Credit>, address: Name, kind: Kind)
    requires address !in AddressesOf(cs)
    ensures Total(cs, address, kind) == 0
    decreases |cs|
  {
    if cs != [] {
      var front := cs[..|cs| - 1];
      forall i | 0 <= i < |cs| ensures cs[i].address != address {
        assert cs[i].address in AddressesOf(cs);
      }
      NoTotal(front, address, kind);
    }
  }

  // ---------------------------------------------------------------- when the totals are exact

  function Amount(d: Device, kind: Kind): nat {
    if kind == Online then d.online else d.tickets
  }

  /** What the devices state together, each entry counted once. */
  function Stated(ds: seq<Device>, kind: Kind): nat {
    if ds == [] then 0 else Amount(ds[0], kind) + Stated(ds[1..], kind)
  }

  function StatedBy(ds: seq<Device>, kind: Kind, hwids: set<Name>): nat {
    if ds == [] then 0
    else (if ds[0].hwid in hwids then Amount(ds[0], kind) else 0) + StatedBy(ds[1..], kind, hwids)
  }

  lemma {:induction false} StatedByLess(ds: seq<Device>, kind: Kind, hwids: set<Name>)
    ensures StatedBy(ds, kind, hwids) <= Stated(ds, kind)
  {
    if ds != [] {
      StatedByLess(ds[1..], kind, hwids);
    }
  }

  lemma {:induction false} StatedGrows(ds: seq<Device>, kind: Kind, hwids: set<Name>, h: Name)
    requires h !in hwids
    ensures StatedBy(ds, kind, hwids + {h}) >= StatedBy(ds, kind, hwids)
    ensures forall d :: d in ds && d.hwid == h ==>
      StatedBy(ds, kind, hwids + {h}) >= StatedBy(ds, kind, hwids) + Amount(d, kind)
  {
    if ds != [] {
      StatedGrows(ds[1..], kind, hwids, h);
      forall d | d in ds && d.hwid == h
        ensures StatedBy(ds, kind, hwids + {h}) >= StatedBy(ds, kind, hwids) + Amount(d, kind)
      {
        assert d == ds[0] || d in ds[1..];
      }
    }
  }

  /** The devices that were credited for an address. */
  function Credited(cs: seq<Credit>, address: Name, kind: Kind): (hs: set<Name>)
    ensures forall h :: h in hs ==> HasCredit(cs, kind, h)
  {
    if cs == [] then {}
    else
      var last, before := cs[|cs| - 1], cs[..|cs| - 1];
      assert cs == before + [last];
      HasStays(before, [last]);
      Credited(before, address, kind) + if last.address == address && last.kind == kind then {last.device.hwid} else {}
  }

  /** Due credits of different devices add up to no more than these devices state. */
  lemma {:induction false} TotalIsStated(cs: seq<Credit>, ps: seq<Position>, r: Response, a: Name, kind: Kind)
    requires forall i :: 0 <= i < |cs| ==> Due(cs[i], ps, r)
    requires forall i, j :: 0 <= i < j < |cs| ==> Apart(cs[i], cs[j])
    ensures Total(cs, a, kind) <= StatedBy(DevicesOf(r, a), kind, Credited(cs, a, kind))
  {
    if cs != [] {
      var last, before := cs[|cs| - 1], cs[..|cs| - 1];
      TotalIsStated(before, ps, r, a, kind);
      if last.address == a && last.kind == kind {
        var h := last.device.hwid;
        assert !HasCredit(before, kind, h) by {
          assert forall i :: 0 <= i < |before| ==> Apart(cs[i], cs[|cs| - 1]) && before[i] == cs[i];
        }
        assert Due(cs[|cs| - 1], ps, r);
        assert last.device in DevicesOf(r, a) && last.amount == Amount(last.device, kind);
        StatedGrows(DevicesOf(r, a), kind, Credited(before, a, kind), h);
        assert Credited(cs, a, kind) == Credited(before, a, kind) + {h};
      } else {
        assert Credited(cs, a, kind) == Credited(before, a, kind);
      }
    }
  }

  lemma PublishedAt(cs: seq<Credit>, a: Name)
    requires a in AddressesOf(cs)
    ensures Published(cs)[a] == (Total(cs, a, Online) % TWO_TO_32, Total(cs, a, Tickets) % TWO_TO_32)
    ensures Published(cs)[a].0 == Total(cs, a, Online) <==> Total(cs, a, Online) < TWO_TO_32
    ensures Published(cs)[a].1 == Total(cs, a, Tickets) <==> Total(cs, a, Tickets) < TWO_TO_32
  {
    hide Total, AddressesOf;
  }

  /**
   * Main result: a published total is the exact sum of the credits exactly when that sum fits 32 bits, and
   * it does whenever the amounts stated for the address add up to less than 2^32.
   */
  lemma PublishedIsExact(ps: seq<Position>, r: Response, a: Name)
    requires a in AddressesOf(Credits(ps, r))
    ensures var cs := Credits(ps, r);
            && (Published(cs)[a].0 == Total(cs, a, Online) <==> Total(cs, a, Online) < TWO_TO_32)
            && (Published(cs)[a].1 == Total(cs, a, Tickets) <==> Total(cs, a, Tickets) < TWO_TO_32)
            && Total(cs, a, Online) <= Stated(DevicesOf(r, a), Online)
            && Total(cs, a, Tickets) <= Stated(DevicesOf(r, a), Tickets)
            && (Stated(DevicesOf(r, a), Online) < TWO_TO_32 ==> Published(cs)[a].0 == Total(cs, a, Online))
            && (Stated(DevicesOf(r, a), Tickets) < TWO_TO_32 ==> Published(cs)[a].1 == Total(cs, a, Tickets))
  {
    var cs := Credits(ps, r);
    LedgerIsOk(ps, |ps|, r);
    PublishedAt(cs, a);
    hide Published, AddressesOf, Total, Stated, StatedBy, Credited, DevicesOf, Due, Apart;
    TotalIsStated(cs, ps, r, a, Online);
    TotalIsStated(cs, ps, r, a, Tickets);
    StatedByLess(DevicesOf(r, a), Online, Credited(cs, a, Online));
    StatedByLess(DevicesOf(r, a), Tickets, Credited(cs, a, Tickets));
  }

  /** A single device that states 2^32 is credited with it, and nothing is published. */
  lemma LargeAmountsAreLost(a: Name, d: Device)
    requires d.ip == 0 && d.online == TWO_TO_32 && d.tickets == 0
    ensures var cs := Credits([Position(a, 0)], map[a := [d]]);
            && cs == [Credit(Online, 0, a, d, TWO_TO_32)]
            && a in AddressesOf(cs) && Published(cs)[a] == (0, 0) && Total(cs, a, Online) == TWO_TO_32
  {
    var ps, r := [Position(a, 0)], map[a := [d]];
    var empty := Ledger(Seen({}, {}, {}), []);
    assert LedgerOf(ps, 0, r) == empty;
    assert Gives(d, 0, empty.seen);
    assert FirstGiver([d], 0, 0, empty.seen) == 0;
    var cs := Credits(ps, r);
    assert LedgerOf(ps, 1, r) == AtPosition(empty, ps[0], 0, r);
    assert DevicesOf(r, a) == [d];
    assert cs == empty.credits + Given(d, ps[0], 0, empty.seen) == [Credit(Online, 0, a, d, TWO_TO_32)];
    assert cs[0].address == a && cs[..0] == [];
    assert Total(cs, a, Online) == Total(cs[..0], a, Online) + TWO_TO_32;
    assert Total(cs, a, Tickets) == Total(cs[..0], a, Tickets);
  }

  // ---------------------------------------------------------------- the bound is sharp for tickets

  predicate DistinctHwids(ds: seq<Device>) {
    forall i, j :: 0 <= i < j < |ds| ==> ds[i].hwid != ds[j].hwid
  }

  /** A list that names the address `n` times, each time with a balance that is enough for tickets. */
  function Repeated(a: Name, n: nat): (ps: seq<Position>)
    ensures |ps| == n && forall k :: 0 <= k < n ==> ps[k] == Position(a, TICKET_BALANCE)
  {
    seq(n, _ => Position(a, TICKET_BALANCE))
  }

  /** With different devices, one more credited device adds exactly what it states. */
  lemma {:induction false} StatedByOneMore(ds: seq<Device>, kind: Kind, hwids: set<Name>, g: nat)
    requires DistinctHwids(ds) && g < |ds| && ds[g].hwid !in hwids
    ensures StatedBy(ds, kind, hwids + {ds[g].hwid}) == StatedBy(ds, kind, hwids) + Amount(ds[g], kind)
  {
    if g > 0 {
      assert ds[1..][g - 1] == ds[g];
      StatedByOneMore(ds[1..], kind, hwids, g - 1);
    } else {
      StatedByOthers(ds[1..], kind, hwids, ds[0].hwid);
    }
  }

  lemma {:induction false} StatedByOthers(ds: seq<Device>, kind: Kind, hwids: set<Name>, h: Name)
    requires forall i :: 0 <= i < |ds| ==> ds[i].hwid != h
    ensures StatedBy(ds, kind, hwids + {h}) == StatedBy(ds, kind, hwids)
  {
    if ds != [] {
      StatedByOthers(ds[1..], kind, hwids, h);
    }
  }

  lemma {:induction false} StatedByAll(ds: seq<Device>, hwids: set<Name>)
    requires forall i :: 0 <= i < |ds| ==> ds[i].tickets == 0 || ds[i].hwid in hwids
    ensures StatedBy(ds, Tickets, hwids) == Stated(ds, Tickets)
  {
    if ds != [] {
      StatedByAll(ds[1..], hwids);
    }
  }

  /** A device that gives nothing any more gives nothing later either. */
  lemma GivesNoMore(d: Device, e: Device, balance: nat, s: Seen)
    ensures !Gives(d, balance, s) ==> !Gives(d, balance, Counted(e, balance, s))
    ensures !Gives(d, balance, Counted(d, balance, s))
  {
  }

  /** The tickets credited so far are those of the devices counted, and the first `k` devices are used up. */
  predicate UsedUp(ds: seq<Device>, a: Name, k: nat, l: Ledger) {
    && Total(l.credits, a, Tickets) == StatedBy(ds, Tickets, l.seen.ticket)
    && forall i :: 0 <= i < |ds| && i < k ==> !Gives(ds[i], TICKET_BALANCE, l.seen)
  }

  lemma UsesUpOneMore(ds: seq<Device>, a: Name, k: nat, l: Ledger, r: Response)
    requires DistinctHwids(ds) && DevicesOf(r, a) == ds && UsedUp(ds, a, k, l)
    ensures UsedUp(ds, a, k + 1, AtPosition(l, Position(a, TICKET_BALANCE), k, r))
  {
    var p := Position(a, TICKET_BALANCE);
    var g := FirstGiver(ds, 0, p.balance, l.seen);
    var l' := AtPosition(l, p, k, r);
    if g < |ds| {
      assert g >= k;
      forall i | 0 <= i < |ds| && i < k + 1
        ensures !Gives(ds[i], TICKET_BALANCE, l'.seen)
      {
        GivesNoMore(ds[i], ds[g], p.balance, l.seen);
      }
      GivenTickets(ds, a, k, g, l);
    }
  }

  lemma GivenTickets(ds: seq<Device>, a: Name, k: nat, g: nat, l: Ledger)
    requires DistinctHwids(ds) && g < |ds| && Total(l.credits, a, Tickets) == StatedBy(ds, Tickets, l.seen.ticket)
    ensures var p := Position(a, TICKET_BALANCE);
            Total(l.credits + Given(ds[g], p, k, l.seen), a, Tickets)
              == StatedBy(ds, Tickets, Counted(ds[g], p.balance, l.seen).ticket)
  {
    hide Total, StatedBy;
    var p, d := Position(a, TICKET_BALANCE), ds[g];
    var online := if GivesOnline(d, l.seen) then [Credit(Online, k, a, d, d.online)] else [];
    if GivesOnline(d, l.seen) {
      TotalNext(l.credits, online[0], a, Tickets);
    } else {
      assert l.credits + online == l.credits;
    }
    if GivesTickets(d, p.balance, l.seen) {
      var c := Credit(Tickets, k, a, d, d.tickets);
      TotalNext(l.credits + online, c, a, Tickets);
      StatedByOneMore(ds, Tickets, l.seen.ticket, g);
      assert l.credits + (online + [c]) == l.credits + online + [c];
    } else {
      assert online + [] == online;
    }
  }

  lemma {:induction false} RepeatedUsesUp(ds: seq<Device>, a: Name, n: nat, k: nat, r: Response)
    requires DistinctHwids(ds) && DevicesOf(r, a) == ds && k <= n
    ensures UsedUp(ds, a, k, LedgerOf(Repeated(a, n), k, r))
  {
    hide UsedUp, AtPosition;
    if k == 0 {
      NothingUsed(ds, a);
    } else {
      RepeatedUsesUp(ds, a, n, k - 1, r);
      UsesUpOneMore(ds, a, k - 1, LedgerOf(Repeated(a, n), k - 1, r), r);
    }
  }

  lemma {:induction false} NothingStated(ds: seq<Device>, kind: Kind)
    ensures StatedBy(ds, kind, {}) == 0
  {
    if ds != [] {
      NothingStated(ds[1..], kind);
    }
  }

  lemma NothingUsed(ds: seq<Device>, a: Name)
    ensures UsedUp(ds, a, 0, Ledger(Seen({}, {}, {}), []))
  {
    NothingStated(ds, Tickets);
  }

  /**
   * Main result: for tickets the bound of PublishedIsExact is sharp. Whatever different devices an address has,
   * a list that names it once for each credits all their tickets; so if these reach 2^32, the published total
   * is not the sum.
   */
  lemma TicketBoundIsSharp(ds: seq<Device>, a: Name, r: Response)
    requires DistinctHwids(ds) && DevicesOf(r, a) == ds && Stated(ds, Tickets) >= TWO_TO_32
    ensures var cs := Credits(Repeated(a, |ds|), r);
            && Total(cs, a, Tickets) == Stated(ds, Tickets)
            && a in AddressesOf(cs) && Published(cs)[a].1 != Total(cs, a, Tickets)
  {
    var ps := Repeated(a, |ds|);
    var l := LedgerOf(ps, |ds|, r);
    RepeatedUsesUp(ds, a, |ds|, |ds|, r);
    forall i | 0 <= i < |ds| ensures ds[i].tickets == 0 || ds[i].hwid in l.seen.ticket {
      assert !Gives(ds[i], TICKET_BALANCE, l.seen);
    }
    StatedByAll(ds, l.seen.ticket);
    hide Total, Stated, StatedBy, LedgerOf;
    if a !in AddressesOf(l.credits) {
      NoTotal(l.credits, a, Tickets);
    }
    PublishedAt(l.credits, a);
  }

  // ---------------------------------------------------------------- the loops

  /** `totals[address].first += amount` in 32 bits; an absent entry starts from zero. */
  method AddOnline(totals: Totals, address: Name, amount: nat, ghost credits: seq<Credit>, ghost c: Credit)
    returns (r: Totals)
    requires totals == Published(credits) && c.kind == Online && c.address == address && c.amount == amount
    ensures r == Published(credits + [c])
  {
    OneMorePublished(credits, c);
    hide Published;
    var before := if address in totals then totals[address] else (0, 0);
    r := totals[address := ((before.0 + amount) % TWO_TO_32, before.1)];
  }

  method AddTickets(totals: Totals, address: Name, amount: nat, ghost credits: seq<Credit>, ghost c: Credit)
    returns (r: Totals)
    requires totals == Published(credits) && c.kind == Tickets && c.address == address && c.amount == amount
    ensures r == Published(credits + [c])
  {
    OneMorePublished(credits, c);
    hide Published;
    var before := if address in totals then totals[address] else (0, 0);
    r := totals[address := (before.0, (before.1 + amount) % TWO_TO_32)];
  }

  /** The body of the inner loop. */
  method CreditDevice(d: Device, p: Position, ghost k: nat, totals: Totals, ghost credits: seq<Credit>,
                      ips: set<nat>, hwidsOnline: set<Name>, hwidsTicket: set<Name>)
    returns (gotOne: bool, totals': Totals, ips': set<nat>, hwidsOnline': set<Name>, hwidsTicket': set<Name>)
    requires totals == Published(credits)
    ensures var s := Seen(ips, hwidsOnline, hwidsTicket);
            && gotOne == Gives(d, p.balance, s)
            && Seen(ips', hwidsOnline', hwidsTicket') == Counted(d, p.balance, s)
            && totals' == Published(credits + Given(d, p, k, s))
  {
    hide Published;
    ghost var online, tickets := Credit(Online, k, p.address, d, d.online), Credit(Tickets, k, p.address, d, d.tickets);
    ghost var given: seq<Credit> := [];
    gotOne, totals', ips', hwidsOnline', hwidsTicket' := false, totals, ips, hwidsOnline, hwidsTicket;
    if d.online > 0 && d.hwid !in hwidsOnline {
      if d.ip > 0 {
        if d.ip !in ips {
          ips' := ips + {d.ip};
          hwidsOnline' := hwidsOnline + {d.hwid};
          totals' := AddOnline(totals, p.address, d.online, credits, online);
          gotOne := true;
        }
      } else {
        hwidsOnline' := hwidsOnline + {d.hwid};
        totals' := AddOnline(totals, p.address, d.online, credits, online);
        gotOne := true;
      }
    }
    if gotOne {
      given := [online];
    } else {
      assert credits + given == credits;
    }
    if p.balance >= TICKET_BALANCE && d.tickets > 0 && d.hwid !in hwidsTicket {
      hwidsTicket' := hwidsTicket + {d.hwid};
      totals' := AddTickets(totals', p.address, d.tickets, credits + given, tickets);
      assert credits + given + [tickets] == credits + (given + [tickets]);
      gotOne := true;
    }
    assert given + [] == given;
  }

  /** Main result: the totals published by the two loops are the sums of the credits. */
  method CreditAll(ps: seq<Position>, r: Response) returns (totals: Totals)
    ensures totals == Published(Credits(ps, r))
  {
    hide Published, FirstGiver, Counted, Given, Gives;
    var ips: set<nat>, hwidsOnline: set<Name>, hwidsTicket: set<Name> := {}, {}, {};
    ghost var credits: seq<Credit> := [];
    totals := map[];
    NothingPublished();
    var k := 0;
    while k < |ps|
      invariant k <= |ps|
      invariant LedgerOf(ps, k, r) == Ledger(Seen(ips, hwidsOnline, hwidsTicket), credits)
      invariant totals == Published(credits)
    {
      var p := ps[k];
      var devices := DevicesOf(r, p.address);
      ghost var seen := Seen(ips, hwidsOnline, hwidsTicket);
      var j := 0;
      var gotOne := false;
      while j < |devices| && !gotOne
        invariant j <= |devices|
        invariant !gotOne ==>
          Seen(ips, hwidsOnline, hwidsTicket) == seen && credits == LedgerOf(ps, k, r).credits &&
          FirstGiver(devices, 0, p.balance, seen) == FirstGiver(devices, j, p.balance, seen)
        invariant gotOne ==> LedgerOf(ps, k + 1, r) == Ledger(Seen(ips, hwidsOnline, hwidsTicket), credits)
        invariant totals == Published(credits)
        decreases |devices| - j, !gotOne
      {
        NextGiver(devices, j, p.balance, seen);
        NothingGiven(devices[j], p, k, seen);
        ghost var given := Given(devices[j], p, k, seen);
        gotOne, totals, ips, hwidsOnline, hwidsTicket :=
          CreditDevice(devices[j], p, k, totals, credits, ips, hwidsOnline, hwidsTicket);
        if gotOne {
          credits := credits + given;
        } else {
          assert credits + given == credits;
          j := j + 1;
        }
      }
      NoGiverLeft(devices, p.balance, seen);
      k := k + 1;
    }
  }

  lemma NothingGiven(d: Device, p: Position, k: nat, s: Seen)
    ensures !Gives(d, p.balance, s) ==> Given(d, p, k, s) == [] && Counted(d, p.balance, s) == s
  {
  }

  lemma NothingPublished()
    ensures Published([]) == map[]
  {
  }

  lemma NextGiver(ds: seq<Device>, j: nat, balance: nat, s: Seen)
    requires j < |ds|
    ensures FirstGiver(ds, j, balance, s) == if Gives(ds[j], balance, s) then j else FirstGiver(ds, j + 1, balance, s)
  {
  }

  lemma NoGiverLeft(ds: seq<Device>, balance: nat, s: Seen)
    ensures FirstGiver(ds, |ds|, balance, s) == |ds|
  {
  }
}
