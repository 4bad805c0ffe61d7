// Bans of contributors and vendors, and the status of a vendor, under interleaved API calls and the
// cron that lifts expired bans.
module Bans {
  import opened Common
  import opened Seqs
  import opened Store

  /******* Contributors *******/

  // A contributor ban without a due date is permanent.
  datatype Ban = Ban(administrator: string, due: Option<Time>) {
    predicate Unexpired(now: Time) {
      due.None? || due.value > now
    }
  }

  datatype Contributor = Contributor(bans: seq<Ban>, dateModified: Time)

  predicate BannedBy(bans: seq<Ban>, administrator: string, now: Time) {
    exists i :: 0 <= i < |bans| && bans[i].administrator == administrator && bans[i].Unexpired(now)
  }

  // The check before a contributor ban is posted.
  method ValidateBanIsNew(bans: seq<Ban>, administrator: string, now: Time) returns (ok: bool)
    ensures ok <==> !BannedBy(bans, administrator, now)
  {
    for i := 0 to |bans|
      invariant forall k :: 0 <= k < i ==> !(bans[k].administrator == administrator && bans[k].Unexpired(now))
    {
      if bans[i].administrator == administrator && bans[i].Unexpired(now) {
        return false;
      }
    }
    ok := true;
  }

  function PostBan(administrator: string, due: Option<Time>, now: Time): Handler<Contributor> {
    (c: Contributor) =>
      if BannedBy(c.bans, administrator, now) then None
      else Some(c.(bans := c.bans + [Ban(administrator, due)], dateModified := now))
  }

  class ContributorRecord {
    var contributor: Contributor

    constructor (contributor: Contributor)
      ensures this.contributor == contributor
    {
      this.contributor := contributor;
    }

    method Post(administrator: string, due: Option<Time>, now: Time) returns (ok: bool)
      modifies this
      ensures ok <==> PostBan(administrator, due, now)(old(contributor)).Some?
      ensures contributor == PostBan(administrator, due, now)(old(contributor)).GetOr(old(contributor))
    {
      ok := ValidateBanIsNew(contributor.bans, administrator, now);
      if ok {
        contributor := contributor.(dateModified := now);
        contributor := contributor.(bans := contributor.bans + [Ban(administrator, due)]);
      }
    }
  }

  // Handlers of other parts of a contributor, such as its documents.
  function TouchContributor(now: Time): Handler<Contributor> {
    (c: Contributor) => Some(c.(dateModified := now))
  }

  ghost predicate OneBanPerAdministrator(now: Time, c: Contributor) {
    forall i, j :: 0 <= i < j < |c.bans| && c.bans[i].administrator == c.bans[j].administrator ==>
      !(c.bans[i].Unexpired(now) && c.bans[j].Unexpired(now))
  }

  datatype ContributorAction =
    | Register(id: Id, token: nat)
    | Open(client: ClientId, id: Id)
    | BanContributor(client: ClientId, administrator: string, due: Option<Time>)
    | Edit(client: ClientId)
    | Save(client: ClientId, token: nat)
    | Wait(elapsed: nat)

  function ContributorStep(w: World<Contributor>, a: ContributorAction): Step<Contributor> {
    match a
    case Register(id, token) => Insert(id, Contributor([], w.now), token)
    case Open(client, id) => Read(client, id)
    case BanContributor(client, administrator, due) => Handle(client, PostBan(administrator, due, w.now))
    case Edit(client) => Handle(client, TouchContributor(w.now))
    case Save(client, token) => Commit(client, token)
    case Wait(elapsed) => Tick(elapsed)
  }

  function ContributorSteps(w: World<Contributor>, actions: seq<ContributorAction>): seq<Step<Contributor>>
    decreases |actions|
  {
    if actions == [] then [] else
    var s := ContributorStep(w, actions[0]);
    [s] + ContributorSteps(Next(w, s), actions[1..])
  }

  lemma PostBanKeepsOne(administrator: string, due: Option<Time>, now: Time, c: Contributor)
    requires OneBanPerAdministrator(now, c)
    requires PostBan(administrator, due, now)(c).Some?
    ensures OneBanPerAdministrator(now, PostBan(administrator, due, now)(c).value)
  {
    var bans := PostBan(administrator, due, now)(c).value.bans;
    forall i, j | 0 <= i < j < |bans| && bans[i].administrator == bans[j].administrator
      ensures !(bans[i].Unexpired(now) && bans[j].Unexpired(now))
    {
      if j == |c.bans| {
        assert c.bans[i] == bans[i];
      }
    }
  }

  lemma {:induction false} ContributorActionsKeep(w: World<Contributor>, actions: seq<ContributorAction>)
    ensures AllKept(OneBanPerAdministrator, w, ContributorSteps(w, actions))
    decreases |actions|
  {
    if actions != [] {
      var s := ContributorStep(w, actions[0]);
      forall c | OneBanPerAdministrator(w.now, c) && actions[0].BanContributor? && s.handler(c).Some?
        ensures OneBanPerAdministrator(w.now, s.handler(c).value)
      {
        PostBanKeepsOne(actions[0].administrator, actions[0].due, w.now, c);
      }
      ContributorActionsKeep(Next(w, s), actions[1..]);
      assert ContributorSteps(w, actions)[1..] == ContributorSteps(Next(w, s), actions[1..]);
    }
  }

  // In every interleaving of API calls, at every moment, a contributor has at most one unexpired ban
  // per administrator.
  lemma ContributorBansAreUnique(actions: seq<ContributorAction>, id: Id)
    requires id in Run(Empty(), ContributorSteps(Empty(), actions)).docs
    ensures var end := Run(Empty(), ContributorSteps(Empty(), actions));
            OneBanPerAdministrator(end.now, end.docs[id].body)
  {
    ContributorActionsKeep(Empty(), actions);
    LiftInvariant(OneBanPerAdministrator, Empty(), ContributorSteps(Empty(), actions));
  }

  /******* Vendors *******/

  datatype Status = Pending | Active | Banned

  // A vendor ban always has a due date, a year after the request that posted it.
  datatype Vendor = Vendor(isActivated: bool, status: Status, bans: seq<Time>, dateModified: Time)

  predicate HasUnexpired(bans: seq<Time>, now: Time) {
    exists i :: 0 <= i < |bans| && bans[i] > now
  }

  // Only activation can be patched in; the status is set again only if something changed.
  function PatchVendor(activate: bool, identifierIsFree: bool, now: Time): Handler<Vendor> {
    (v: Vendor) =>
      var after := v.(isActivated := v.isActivated || activate);
      if after == v then Some(v)
      else if !identifierIsFree then None
      else Some(after.(dateModified := now, status := if after.isActivated then Active else Pending))
  }

  function PostVendorBan(due: Time, now: Time): Handler<Vendor> {
    (v: Vendor) =>
      if !v.isActivated || HasUnexpired(v.bans, now) then None
      else Some(v.(bans := v.bans + [due], status := Banned, dateModified := now))
  }

  function TouchVendor(now: Time): Handler<Vendor> {
    (v: Vendor) => Some(v.(dateModified := now))
  }

  // What the cron looks for: banned, and none of the bans unexpired.
  predicate ToBeLifted(v: Vendor, now: Time) {
    v.status == Banned && v.bans != [] && !HasUnexpired(v.bans, now)
  }

  // What it writes, no matter what has become of the vendor meanwhile.
  function Activated(date: Time): Vendor -> Vendor {
    (v: Vendor) => v.(status := Active, dateModified := date)
  }

  // Both at once, as far as one vendor is concerned.
  function Lift(v: Vendor, now: Time): Vendor {
    if ToBeLifted(v, now) then Activated(now)(v) else v
  }

  method ValidateActiveVendor(v: Vendor, now: Time) returns (ok: bool)
    ensures ok <==> v.isActivated && !HasUnexpired(v.bans, now)
  {
    if !v.isActivated {
      return false;
    }
    for i := 0 to |v.bans|
      invariant forall k :: 0 <= k < i ==> v.bans[k] <= now
    {
      if v.bans[i] > now {
        return false;
      }
    }
    ok := true;
  }

  class VendorRecord {
    var vendor: Vendor

    constructor (vendor: Vendor)
      ensures this.vendor == vendor
    {
      this.vendor := vendor;
    }

    method Patch(activate: bool, identifierIsFree: bool, now: Time) returns (ok: bool)
      modifies this
      ensures ok <==> PatchVendor(activate, identifierIsFree, now)(old(vendor)).Some?
      ensures vendor == PatchVendor(activate, identifierIsFree, now)(old(vendor)).GetOr(old(vendor))
    {
      var before := vendor;
      if activate {
        vendor := vendor.(isActivated := true);
      }
      if before != vendor {
        vendor := vendor.(dateModified := now);
        if vendor.isActivated && !before.isActivated && !identifierIsFree {
          vendor := before; // nothing is written
          return false;
        }
        vendor := vendor.(status := if vendor.isActivated then Active else Pending);
      }
      ok := true;
    }

    method Post(due: Time, now: Time) returns (ok: bool)
      modifies this
      ensures ok <==> PostVendorBan(due, now)(old(vendor)).Some?
      ensures vendor == PostVendorBan(due, now)(old(vendor)).GetOr(old(vendor))
    {
      ok := ValidateActiveVendor(vendor, now);
      if ok {
        vendor := vendor.(status := Banned);
        vendor := vendor.(dateModified := now);
        vendor := vendor.(bans := vendor.bans + [due]);
      }
    }
  }

  function Picks(docs: map<Id, Doc<Vendor>>, now: Time): Id -> bool {
    (id: Id) => id in docs && ToBeLifted(docs[id].body, now)
  }

  // The cron's scan: goes over the vendors in cursor order and collects those to be lifted.
  method ScanBannedVendors(vendors: Collection<Vendor>, cursor: seq<Id>, now: Time) returns (bulk: seq<Id>)
    requires forall id :: id in cursor ==> id in vendors.docs
    ensures bulk == Filter(cursor, Picks(vendors.docs, now))
  {
    bulk := [];
    for k := 0 to |cursor|
      invariant bulk == Filter(cursor[..k], Picks(vendors.docs, now))
    {
      FilterOneMore(cursor, k, Picks(vendors.docs, now));
      var v := vendors.docs[cursor[k]].body;
      if v.status == Banned && v.bans != [] {
        var i := 0;
        while i < |v.bans| && v.bans[i] <= now
          invariant i <= |v.bans| && forall j :: 0 <= j < i ==> v.bans[j] <= now
        {
          i := i + 1;
        }
        if i == |v.bans| {
          bulk := bulk + [cursor[k]];
        }
      }
    }
    assert cursor[..|cursor|] == cursor;
  }

  // The cron's write, whenever it comes.
  method WriteLifts(vendors: Collection<Vendor>, bulk: seq<Id>, date: Time)
    modifies vendors
    ensures vendors.docs == map id | id in old(vendors.docs) ::
              if id in bulk then old(vendors.docs)[id].(body := Activated(date)(old(vendors.docs)[id].body))
              else old(vendors.docs)[id]
  {
    for k := 0 to |bulk|
      invariant vendors.docs == map id | id in old(vendors.docs) ::
                  if id in bulk[..k] then old(vendors.docs)[id].(body := Activated(date)(old(vendors.docs)[id].body))
                  else old(vendors.docs)[id]
    {
      if bulk[k] in vendors.docs {
        var doc := vendors.docs[bulk[k]];
        vendors.docs := vendors.docs[bulk[k] := doc.(body := doc.body.(status := Active, dateModified := date))];
      }
    }
  }

  // The whole task, undisturbed. Returns how many vendors it has lifted.
  method ActivateBannedVendors(vendors: Collection<Vendor>, cursor: seq<Id>, now: Time) returns (total: nat)
    requires forall id :: id in vendors.docs <==> id in cursor
    modifies vendors
    ensures vendors.docs == map id | id in old(vendors.docs) ::
              old(vendors.docs)[id].(body := Lift(old(vendors.docs)[id].body, now))
    ensures total == |Filter(cursor, Picks(old(vendors.docs), now))|
  {
    var bulk := ScanBannedVendors(vendors, cursor, now);
    FilterMembers(cursor, Picks(vendors.docs, now));
    WriteLifts(vendors, bulk, now);
    total := |bulk|;
  }

  // What a vendor document always satisfies.
  ghost predicate VendorInv(now: Time, v: Vendor) {
    && (v.status == Pending <==> !v.isActivated)
    && (v.bans != [] ==> v.isActivated)
    && (forall i, j :: 0 <= i < j < |v.bans| ==> !(v.bans[i] > now && v.bans[j] > now))
    && (HasUnexpired(v.bans, now) ==> v.status == Banned)
  }

  lemma VendorHandlersKeep(now: Time, v: Vendor, due: Time, activate: bool, free: bool)
    requires VendorInv(now, v)
    ensures VendorInv(now, Lift(v, now))
    ensures PatchVendor(activate, free, now)(v).Some? ==> VendorInv(now, PatchVendor(activate, free, now)(v).value)
    ensures PostVendorBan(due, now)(v).Some? ==> VendorInv(now, PostVendorBan(due, now)(v).value)
  {
    var banned := PostVendorBan(due, now)(v);
    if banned.Some? {
      forall i, j | 0 <= i < j < |v.bans| + 1
        ensures !(banned.value.bans[i] > now && banned.value.bans[j] > now)
      {
        assert banned.value.bans[i] == v.bans[i];
      }
    }
  }

  lemma VendorInvLasts()
    ensures Lasting(VendorInv)
  {
    forall t, t', v | t <= t' && VendorInv(t, v)
      ensures VendorInv(t', v)
    {
    }
  }

  // Exactly when a late write does no harm to the vendor it meets.
  lemma LateLiftExactly(now: Time, v: Vendor, date: Time)
    requires VendorInv(now, v)
    ensures VendorInv(now, Activated(date)(v)) <==> v.isActivated && !HasUnexpired(v.bans, now)
  {
  }

  // A new ban may be posted on any vendor the cron has picked, and the late write then makes that
  // vendor active although banned.
  lemma LateLiftUnbans(v: Vendor, now: Time, due: Time)
    requires VendorInv(now, v) && ToBeLifted(v, now) && due > now
    ensures var banned := PostVendorBan(due, now)(v);
            && banned.Some? && VendorInv(now, banned.value)
            && HasUnexpired(banned.value.bans, now) && !VendorInv(now, Activated(now)(banned.value))
  {
    VendorHandlersKeep(now, v, due, false, false);
    var banned := PostVendorBan(due, now)(v).value;
    assert banned.bans[|v.bans|] == due;
  }

  /******* Vendors, interleaved with the cron *******/

  // The store of vendors, and the vendors the cron has picked and not written yet, with the date of
  // the scan.
  datatype Town = Town(vendors: World<Vendor>, picked: map<Id, Time>)

  datatype VendorAction =
    | Enlist(id: Id, token: nat)
    | OpenVendor(client: ClientId, id: Id)
    | ActivateVendor(client: ClientId, activate: bool, identifierIsFree: bool)
    | BanVendor(client: ClientId, due: Time)
    | EditVendor(client: ClientId)
    | SaveVendor(client: ClientId, token: nat)
    | Elapse(elapsed: nat)
    | Scan(id: Id) // the cron ...
    | WriteLift(id: Id)
    | LiftBans(id: Id) // ... and its two steps with nothing in between

  predicate IsCron(a: VendorAction) {
    a.Scan? || a.WriteLift? || a.LiftBans?
  }

  function VendorStep(w: World<Vendor>, a: VendorAction): Step<Vendor>
    requires !IsCron(a)
  {
    match a
    case Enlist(id, token) => Insert(id, Vendor(false, Pending, [], w.now), token)
    case OpenVendor(client, id) => Read(client, id)
    case ActivateVendor(client, activate, identifierIsFree) => Handle(client, PatchVendor(activate, identifierIsFree, w.now))
    case BanVendor(client, due) => Handle(client, PostVendorBan(due, w.now))
    case EditVendor(client) => Handle(client, TouchVendor(w.now))
    case SaveVendor(client, token) => Commit(client, token)
    case Elapse(elapsed) => Tick(elapsed)
  }

  predicate Picked(w: World<Vendor>, id: Id) {
    id in w.docs && ToBeLifted(w.docs[id].body, w.now)
  }

  function VendorAct(t: Town, a: VendorAction): Town {
    var w := t.vendors;
    if a.Scan? then if Picked(w, a.id) then t.(picked := t.picked[a.id := w.now]) else t
    else if a.WriteLift? then
      if a.id in t.picked then Town(Next(w, Patch(a.id, Activated(t.picked[a.id]))), t.picked - {a.id}) else t
    else if a.LiftBans? then
      if Picked(w, a.id) then t.(vendors := Next(w, Patch(a.id, Activated(w.now)))) else t
    else t.(vendors := Next(w, VendorStep(w, a)))
  }

  function VendorActAll(t: Town, actions: seq<VendorAction>): Town
    decreases |actions|
  {
    if actions == [] then t else VendorActAll(VendorAct(t, actions[0]), actions[1..])
  }

  const EMPTY_TOWN := Town(Empty<Vendor>(), map[])

  // A write of the cron meets the vendor activated and without an unexpired ban at that moment.
  predicate Harmless(t: Town, a: VendorAction) {
    a.WriteLift? && a.id in t.picked && a.id in t.vendors.docs && a.id in t.vendors.log ==>
      var v := t.vendors.docs[a.id].body; v.isActivated && !HasUnexpired(v.bans, t.vendors.now)
  }

  predicate AllHarmless(t: Town, actions: seq<VendorAction>)
    decreases |actions|
  {
    actions != [] ==> Harmless(t, actions[0]) && AllHarmless(VendorAct(t, actions[0]), actions[1..])
  }

  lemma ActivationExactly(w: World<Vendor>, id: Id, date: Time)
    requires Everywhere(VendorInv, w) && id in w.docs && id in w.log
    ensures Everywhere(VendorInv, Next(w, Patch(id, Activated(date)))) <==>
            w.docs[id].body.isActivated && !HasUnexpired(w.docs[id].body.bans, w.now)
  {
    var after := Next(w, Patch(id, Activated(date)));
    LateLiftExactly(w.now, w.docs[id].body, date);
    assert after.docs[id].body == Activated(date)(w.docs[id].body);
    hide VendorInv, HasUnexpired;
    assert forall other :: other in w.docs && other != id ==> after.docs[other] == w.docs[other];
  }

  // Exactly which writes of the cron keep the invariant.
  lemma WriteKeepsInvExactly(t: Town, id: Id)
    requires Everywhere(VendorInv, t.vendors)
    ensures Everywhere(VendorInv, VendorAct(t, WriteLift(id)).vendors) <==> Harmless(t, WriteLift(id))
  {
    if id in t.picked && id in t.vendors.docs && id in t.vendors.log {
      ActivationExactly(t.vendors, id, t.picked[id]);
    }
  }

  lemma StepIsKept(w: World<Vendor>, a: VendorAction)
    requires !IsCron(a)
    ensures KeptBy(VendorInv, w.now, VendorStep(w, a))
  {
    var s := VendorStep(w, a);
    if s.Handle? {
      forall v | VendorInv(w.now, v) && s.handler(v).Some?
        ensures VendorInv(w.now, s.handler(v).value)
      {
        VendorHandlersKeep(w.now, v, if a.BanVendor? then a.due else 0, a.ActivateVendor? && a.activate,
                           a.ActivateVendor? && a.identifierIsFree);
      }
    }
  }

  lemma VendorActKeepsInv(t: Town, a: VendorAction)
    requires Everywhere(VendorInv, t.vendors) && Harmless(t, a)
    ensures Everywhere(VendorInv, VendorAct(t, a).vendors)
  {
    if a.WriteLift? {
      WriteKeepsInvExactly(t, a.id);
    } else if a.LiftBans? {
      if Picked(t.vendors, a.id) && a.id in t.vendors.log {
        assert VendorInv(t.vendors.now, t.vendors.docs[a.id].body);
        ActivationExactly(t.vendors, a.id, t.vendors.now);
      }
    } else if !a.Scan? {
      hide Everywhere, Lasting, Next, KeptBy;
      VendorInvLasts();
      StepIsKept(t.vendors, a);
      StepKeepsEverywhere(VendorInv, t.vendors, VendorStep(t.vendors, a));
    }
  }

  lemma {:induction false} VendorActAllKeepsInv(t: Town, actions: seq<VendorAction>)
    requires Everywhere(VendorInv, t.vendors) && AllHarmless(t, actions)
    ensures Everywhere(VendorInv, VendorActAll(t, actions).vendors)
    decreases |actions|
  {
    hide Everywhere, Harmless, VendorAct;
    if actions != [] {
      VendorActKeepsInv(t, actions[0]);
      VendorActAllKeepsInv(VendorAct(t, actions[0]), actions[1..]);
    }
  }

  // In every interleaving of API calls with the cron, at every moment: a vendor is pending exactly if
  // it is not activated, has at most one unexpired ban, and is banned while it has one - as long as
  // every late write of the cron meets its vendor activated and without an unexpired ban.
  lemma VendorsAreConsistent(actions: seq<VendorAction>, id: Id)
    requires AllHarmless(EMPTY_TOWN, actions) && id in VendorActAll(EMPTY_TOWN, actions).vendors.docs
    ensures var end := VendorActAll(EMPTY_TOWN, actions).vendors; VendorInv(end.now, end.docs[id].body)
  {
    VendorActAllKeepsInv(EMPTY_TOWN, actions);
  }

  // A cron that writes at once needs no such assumption: lifting in one step is a scan and a write with
  // nothing in between, and runs in which the cron does just that have no other writes.
  lemma PromptLiftIsOneStep(t: Town, id: Id)
    requires id !in t.picked
    ensures VendorActAll(t, [Scan(id), WriteLift(id)]).vendors == VendorAct(t, LiftBans(id)).vendors
    ensures VendorActAll(t, [Scan(id), WriteLift(id)]).picked == t.picked
  {
    var between := VendorAct(t, Scan(id));
    var actions := [Scan(id), WriteLift(id)];
    assert actions[1..] == [WriteLift(id)] && actions[1..][1..] == [];
    assert VendorActAll(t, actions) == VendorActAll(between, actions[1..]) == VendorAct(between, WriteLift(id));
    assert t.picked[id := t.vendors.now] - {id} == t.picked;
  }

  lemma {:induction false} PromptRunsAreHarmless(t: Town, actions: seq<VendorAction>)
    requires forall a :: a in actions ==> !a.WriteLift?
    ensures AllHarmless(t, actions)
    decreases |actions|
  {
    hide VendorAct;
    if actions != [] {
      assert actions[0] in actions;
      PromptRunsAreHarmless(VendorAct(t, actions[0]), actions[1..]);
    }
  }

  /******* A run that breaks it *******/

  const V := "v"

  predicate At(t: Town, v: Vendor, now: Time, picked: map<Id, Time>) {
    V in t.vendors.docs && V in t.vendors.log && t.vendors.log[V] != [] &&
    t.vendors.docs[V].body == v && t.vendors.now == now && t.picked == picked
  }

  // Opening, editing and saving the vendor, with nobody else at work.
  lemma Edited(t: Town, v: Vendor, now: Time, picked: map<Id, Time>, a: VendorAction, edited: Vendor, token: nat)
    requires At(t, v, now, picked) && token !in t.vendors.drawn
    requires (a.ActivateVendor? || a.BanVendor?) && a.client == 1
    requires VendorStep(t.vendors, a).handler(v) == Some(edited)
    ensures var after := VendorAct(VendorAct(VendorAct(t, OpenVendor(1, V)), a), SaveVendor(1, token));
            At(after, edited, now, picked) && after.vendors.drawn == t.vendors.drawn + {token}
  {
    var one := VendorAct(t, OpenVendor(1, V));
    var two := VendorAct(one, a);
    assert one.vendors.clients[1] == Reading(V, t.vendors.docs[V], |t.vendors.log[V]| - 1);
    assert two.vendors.clients[1].Ready? && two.vendors.clients[1].body == edited;
    assert two.vendors.docs == t.vendors.docs && CanReplace(two.vendors.docs, V, two.vendors.clients[1].base.rev);
  }

  lemma {:induction false} VendorActAllConcat(t: Town, first: seq<VendorAction>, rest: seq<VendorAction>)
    ensures VendorActAll(t, first + rest) == VendorActAll(VendorActAll(t, first), rest)
    decreases |first|
  {
    hide VendorAct;
    if first == [] {
      assert first + rest == rest;
    } else {
      assert (first + rest)[0] == first[0] && (first + rest)[1..] == first[1..] + rest;
      VendorActAllConcat(VendorAct(t, first[0]), first[1..], rest);
    }
  }

  lemma ThreeActions(t: Town, a: VendorAction, b: VendorAction, c: VendorAction)
    ensures VendorActAll(t, [a, b, c]) == VendorAct(VendorAct(VendorAct(t, a), b), c)
  {
    hide VendorAct;
    assert [a, b, c][1..] == [b, c] && [b, c][1..] == [c] && [c][1..] == [];
    assert VendorActAll(VendorAct(t, a), [b, c]) == VendorActAll(VendorAct(VendorAct(t, a), b), [c]);
  }

  lemma OneAction(t: Town, a: VendorAction)
    ensures VendorActAll(t, [a]) == VendorAct(t, a)
  {
    assert [a][1..] == [];
  }

  function Editing(a: VendorAction, token: nat): seq<VendorAction> {
    [OpenVendor(1, V), a, SaveVendor(1, token)]
  }

  // A vendor is activated and banned until 1; at that moment the cron picks it, it is banned anew until
  // 9, and then the cron writes.
  const ENLISTING := [Enlist(V, 1)]
  const ACTIVATION := Editing(ActivateVendor(1, true, true), 2)
  const FIRST_BAN := Editing(BanVendor(1, 1), 3)
  const SCAN := [Elapse(1), Scan(V)]
  const SECOND_BAN := Editing(BanVendor(1, 9), 4)

  const BREAKING_RUN := ENLISTING + ACTIVATION + FIRST_BAN + SCAN + SECOND_BAN + [WriteLift(V)]

  const FRESH := Vendor(false, Pending, [], 0)
  const ACTIVE := Vendor(true, Active, [], 0)
  const BANNED_ONCE := Vendor(true, Banned, [1], 0)
  const BANNED_TWICE := Vendor(true, Banned, [1, 9], 1)

  lemma EditedAll(t: Town, v: Vendor, now: Time, picked: map<Id, Time>, a: VendorAction, edited: Vendor, token: nat)
    requires At(t, v, now, picked) && token !in t.vendors.drawn
    requires (a.ActivateVendor? || a.BanVendor?) && a.client == 1
    requires VendorStep(t.vendors, a).handler(v) == Some(edited)
    ensures var after := VendorActAll(t, Editing(a, token));
            At(after, edited, now, picked) && after.vendors.drawn == t.vendors.drawn + {token}
  {
    Edited(t, v, now, picked, a, edited, token);
    ThreeActions(t, OpenVendor(1, V), a, SaveVendor(1, token));
  }

  lemma Enlisted()
    ensures var t := VendorActAll(EMPTY_TOWN, ENLISTING); At(t, FRESH, 0, map[]) && t.vendors.drawn == {1}
  {
    OneAction(EMPTY_TOWN, Enlist(V, 1));
  }

  lemma Scanned(t: Town)
    requires At(t, BANNED_ONCE, 0, map[])
    ensures var after := VendorActAll(t, SCAN); At(after, BANNED_ONCE, 1, map[V := 1]) && after.vendors.drawn == t.vendors.drawn
  {
    VendorActAllConcat(t, [Elapse(1)], [Scan(V)]);
    assert [Elapse(1)] + [Scan(V)] == SCAN;
    OneAction(t, Elapse(1));
    OneAction(VendorAct(t, Elapse(1)), Scan(V));
  }

  lemma Written(t: Town)
    requires At(t, BANNED_TWICE, 1, map[V := 1])
    ensures At(VendorActAll(t, [WriteLift(V)]), BANNED_TWICE.(status := Active), 1, map[])
  {
    OneAction(t, WriteLift(V));
  }

  lemma UpToTheScan()
    ensures var t := VendorActAll(EMPTY_TOWN, ENLISTING + ACTIVATION + FIRST_BAN + SCAN);
            At(t, BANNED_ONCE, 1, map[V := 1]) && t.vendors.drawn == {1, 2, 3}
  {
    hide At, VendorActAll, Next;
    VendorActAllConcat(EMPTY_TOWN, ENLISTING + ACTIVATION + FIRST_BAN, SCAN);
    VendorActAllConcat(EMPTY_TOWN, ENLISTING + ACTIVATION, FIRST_BAN);
    VendorActAllConcat(EMPTY_TOWN, ENLISTING, ACTIVATION);
    Enlisted();
    var one := VendorActAll(EMPTY_TOWN, ENLISTING);
    NowOf(one, FRESH, 0, map[]);
    EditedAll(one, FRESH, 0, map[], ActivateVendor(1, true, true), ACTIVE, 2);
    var two := VendorActAll(one, ACTIVATION);
    NowOf(two, ACTIVE, 0, map[]);
    assert ACTIVE.bans + [1] == [1];
    EditedAll(two, ACTIVE, 0, map[], BanVendor(1, 1), BANNED_ONCE, 3);
    Scanned(VendorActAll(two, FIRST_BAN));
  }

  lemma NowOf(t: Town, v: Vendor, now: Time, picked: map<Id, Time>)
    requires At(t, v, now, picked)
    ensures t.vendors.now == now
  {
  }

  // The run ends with a vendor that has an unexpired ban and is active all the same.
  lemma LateLiftHappens()
    ensures var end := VendorActAll(EMPTY_TOWN, BREAKING_RUN).vendors;
            && V in end.docs && end.docs[V].body.status == Active && HasUnexpired(end.docs[V].body.bans, end.now)
            && !VendorInv(end.now, end.docs[V].body) && !AllHarmless(EMPTY_TOWN, BREAKING_RUN)
  {
    var before := ENLISTING + ACTIVATION + FIRST_BAN + SCAN;
    var t := VendorActAll(EMPTY_TOWN, before);
    UpToTheScan();
    NowOf(t, BANNED_ONCE, 1, map[V := 1]);
    assert BANNED_ONCE.bans + [9] == [1, 9];
    EditedAll(t, BANNED_ONCE, 1, map[V := 1], BanVendor(1, 9), BANNED_TWICE, 4);
    Written(VendorActAll(t, SECOND_BAN));
    VendorActAllConcat(EMPTY_TOWN, before + SECOND_BAN, [WriteLift(V)]);
    VendorActAllConcat(EMPTY_TOWN, before, SECOND_BAN);
    var end := VendorActAll(EMPTY_TOWN, BREAKING_RUN);
    hide VendorActAll, AllHarmless, BREAKING_RUN;
    assert end.vendors.docs[V].body.bans[1] > 1;
    if AllHarmless(EMPTY_TOWN, BREAKING_RUN) {
      VendorsAreConsistent(BREAKING_RUN, V);
    }
  }
}
