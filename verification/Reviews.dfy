// Reviewing product requests: accepting or rejecting one under optimistic locking, and adding the
// product of an accepted request to the market after the commit.
module Reviews {
  import opened Common
  import opened Store

  datatype Review = Review(administrator: string, date: Time)

  datatype Product = Product(id: Option<Id>, relatedCategory: Id, dateModified: Option<Time>)

  datatype Request = Request(acception: Option<Review>, rejection: Option<Review>, product: Product, dateModified: Time)

  // What the handlers use of a category; it is complete if it has all fields a product copies.
  datatype Category = Category(administrator: Option<string>, complete: bool)

  predicate Reviewed(r: Request) {
    r.acception.Some? || r.rejection.Some?
  }

  predicate MayReview(r: Request, administrator: string, category: Option<Category>) {
    !Reviewed(r) && category.Some? && category.value.administrator == Some(administrator)
  }

  function Accept(administrator: string, category: Option<Category>, productId: Id, date: Time): Handler<Request> {
    (r: Request) =>
      if !MayReview(r, administrator, category) || !category.value.complete then None
      else Some(r.(acception := Some(Review(administrator, date)), dateModified := date,
                   product := r.product.(id := Some(productId), dateModified := Some(date))))
  }

  function Reject(administrator: string, category: Option<Category>, date: Time): Handler<Request> {
    (r: Request) =>
      if !MayReview(r, administrator, category) then None
      else Some(r.(rejection := Some(Review(administrator, date)), dateModified := date))
  }

  /******* The handlers, undisturbed *******/

  // Post of an acception: the commit on the requests, then the insert into the products. The result
  // says whether both went through.
  method PostAcception(requests: Collection<Request>, products: Collection<Product>, id: Id, administrator: string,
                       category: Option<Category>, productId: Id, date: Time, token: nat, token': nat) returns (ok: bool)
    modifies requests, products
    ensures var doc := if id in old(requests.docs) then Accept(administrator, category, productId, date)(old(requests.docs)[id].body) else None;
            if doc.None? then
              !ok && requests.docs == old(requests.docs) && products.docs == old(products.docs)
            else
              && requests.docs == Replaced(old(requests.docs), id, old(requests.docs)[id].rev, doc.value, token)
              && products.docs == Inserted(old(products.docs), productId, doc.value.product, token')
              && (ok <==> productId !in old(products.docs))
  {
    var read := requests.ReadObject(id);
    if read.None? || Reviewed(read.value.body) {
      return false;
    }
    if category.None? || category.value.administrator != Some(administrator) || !category.value.complete {
      return false;
    }
    var request := read.value.body;
    request := request.(acception := Some(Review(administrator, date)));
    request := request.(product := request.product.(id := Some(productId), dateModified := Some(date)), dateModified := date);
    var written := requests.UpdateObject(id, read.value.rev, request, token);
    assert written; // nobody else writes in between
    ok := products.InsertObject(productId, request.product, token');
  }

  // Post of a rejection.
  method PostRejection(requests: Collection<Request>, id: Id, administrator: string, category: Option<Category>,
                       date: Time, token: nat) returns (ok: bool)
    modifies requests
    ensures ok <==> id in old(requests.docs) && Reject(administrator, category, date)(old(requests.docs)[id].body).Some?
    ensures requests.docs ==
            if ok then Replaced(old(requests.docs), id, old(requests.docs)[id].rev,
                                Reject(administrator, category, date)(old(requests.docs)[id].body).value, token)
            else old(requests.docs)
  {
    var read := requests.ReadObject(id);
    if read.None? || !MayReview(read.value.body, administrator, category) {
      return false;
    }
    var request := read.value.body.(rejection := Some(Review(administrator, date)), dateModified := date);
    ok := requests.UpdateObject(id, read.value.rev, request, token);
  }

  /******* Interleaved reviewers *******/

  // Reviewers work on the request store; `accepted` holds those that have committed an acception and
  // still have to insert the product; `products` tells which request a product came from.
  datatype Market = Market(requests: World<Request>, accepted: map<ClientId, (Id, Id)>, products: map<Id, Id>)

  datatype Action =
    | Submit(id: Id, product: Product, token: nat)
    | Open(client: ClientId, id: Id)
    | Approve(client: ClientId, administrator: string, category: Option<Category>, productId: Id)
    | Decline(client: ClientId, administrator: string, category: Option<Category>)
    | Save(client: ClientId, token: nat)
    | AddProduct(client: ClientId)
    | Wait(elapsed: nat)

  function StepOf(m: Market, a: Action): Step<Request>
    requires !a.AddProduct?
  {
    match a
    case Submit(id, product, token) => Insert(id, Request(None, None, product, m.requests.now), token)
    case Open(client, id) => Read(client, id)
    case Approve(client, administrator, category, productId) =>
      Handle(client, Accept(administrator, category, productId, m.requests.now))
    case Decline(client, administrator, category) =>
      Handle(client, Reject(administrator, category, m.requests.now))
    case Save(client, token) => Commit(client, token)
    case Wait(elapsed) => Tick(elapsed)
  }

  predicate Commits(w: World<Request>, client: ClientId, token: nat) {
    && client in w.clients && w.clients[client].Ready? && token !in w.drawn
    && CanReplace(w.docs, w.clients[client].id, w.clients[client].base.rev)
  }

  function Act(m: Market, a: Action): Market {
    if a.AddProduct? then
      if a.client !in m.accepted then m else
      var (id, productId) := m.accepted[a.client];
      m.(accepted := m.accepted - {a.client},
         products := if productId in m.products then m.products else m.products[productId := id])
    else if a.Open? && a.client in m.accepted then m // still busy with its own request
    else
      var requests := Next(m.requests, StepOf(m, a));
      if a.Save? && Commits(m.requests, a.client, a.token) && m.requests.clients[a.client].body.acception.Some? then
        var c := m.requests.clients[a.client];
        Market(requests, m.accepted[a.client := (c.id, c.body.product.id.GetOr(""))], m.products)
      else
        m.(requests := requests)
  }

  function ActAll(m: Market, actions: seq<Action>): Market
    decreases |actions|
  {
    if actions == [] then m else ActAll(Act(m, actions[0]), actions[1..])
  }

  const EMPTY_MARKET := Market(Empty<Request>(), map[], map[])

  // A review of a request that had none: one of the two, and an acception names the product.
  ghost predicate FirstReview(before: Request, after: Request) {
    && !Reviewed(before) && Reviewed(after)
    && !(after.acception.Some? && after.rejection.Some?)
    && (after.acception.Some? ==> after.product.id.Some?)
  }

  ghost predicate LogInv(log: seq<Entry<Request>>) {
    && Unpatched(log) && 1 <= |log| <= 2 && !Reviewed(log[0].body)
    && (|log| == 2 ==> FirstReview(log[0].body, log[1].body))
  }

  ghost predicate LogsInv(log: map<Id, seq<Entry<Request>>>) {
    forall id :: id in log ==> LogInv(log[id])
  }

  ghost predicate ClientsInv(clients: map<ClientId, Client<Request>>) {
    forall client :: client in clients && clients[client].Ready? ==>
      FirstReview(clients[client].base.body, clients[client].body)
  }

  type Docs = map<Id, Doc<Request>>

  ghost predicate AcceptedAs(docs: Docs, id: Id, productId: Id) {
    id in docs && docs[id].body.acception.Some? && docs[id].body.product.id == Some(productId)
  }

  ghost predicate ProductsInv(docs: Docs, accepted: map<ClientId, (Id, Id)>, products: map<Id, Id>) {
    && (forall client :: client in accepted ==> AcceptedAs(docs, accepted[client].0, accepted[client].1))
    && (forall productId :: productId in products ==> AcceptedAs(docs, products[productId], productId))
  }

  ghost predicate MarketInv(m: Market) {
    && Inv(m.requests) && LogsInv(m.requests.log) && ClientsInv(m.requests.clients)
    && ProductsInv(m.requests.docs, m.accepted, m.products)
  }

  // Accepted requests that stay as they are keep their products.
  lemma ProductsStay(docs: Docs, docs': Docs, accepted: map<ClientId, (Id, Id)>, products: map<Id, Id>)
    requires ProductsInv(docs, accepted, products)
    requires forall id :: id in docs && docs[id].body.acception.Some? ==> id in docs' && docs'[id] == docs[id]
    ensures ProductsInv(docs', accepted, products)
  {
    forall id, productId | AcceptedAs(docs, id, productId)
      ensures AcceptedAs(docs', id, productId)
    {
    }
  }

  // The document at hand is the last entry of its log, so the log decides whether it is reviewed.
  lemma CommitIsTheFirstReview(m: Market, client: ClientId, token: nat)
    requires MarketInv(m) && Commits(m.requests, client, token)
    ensures var c := m.requests.clients[client];
            && c.id in m.requests.log && |m.requests.log[c.id]| == 1
            && FirstReview(m.requests.docs[c.id].body, c.body)
            && c.base.body == m.requests.docs[c.id].body == m.requests.log[c.id][0].body
  {
    var c := m.requests.clients[client];
    assert c.id in m.requests.log && LogInv(m.requests.log[c.id]);
    assert ClientInv(m.requests, c);
    CommitIsCurrent(m.requests, client);
    assert DocInv(m.requests, c.id);
  }

  lemma SaveKeepsInv(m: Market, client: ClientId, token: nat)
    requires MarketInv(m) && Commits(m.requests, client, token)
    ensures MarketInv(Act(m, Save(client, token)))
  {
    hide Inv, FirstReview;
    var after, c := Act(m, Save(client, token)), m.requests.clients[client];
    NextKeepsInv(m.requests, Commit(client, token));
    CommitIsTheFirstReview(m, client, token);
    assert LogInv(after.requests.log[c.id]) by {
      assert after.requests.log[c.id][0] == m.requests.log[c.id][0];
    }
    assert !m.requests.docs[c.id].body.acception.Some? && (c.body.acception.Some? ==> c.body.product.id.Some?) by {
      FirstReviewMeans(m.requests.docs[c.id].body, c.body);
    }
    ProductsStay(m.requests.docs, after.requests.docs, m.accepted, m.products);
  }

  lemma FirstReviewMeans(before: Request, after: Request)
    requires FirstReview(before, after)
    ensures before.acception.None? && (after.acception.Some? ==> after.product.id.Some?)
  {
  }

  // Filling in a review changes the client's own copy only.
  lemma HandleKeepsInv(m: Market, a: Action)
    requires MarketInv(m) && (a.Approve? || a.Decline?)
    ensures MarketInv(Act(m, a))
  {
    hide Inv, LogsInv, ProductsInv;
    NextKeepsInv(m.requests, StepOf(m, a));
  }

  lemma SubmitKeepsInv(m: Market, a: Action)
    requires MarketInv(m) && a.Submit?
    ensures MarketInv(Act(m, a))
  {
    hide Inv, ProductsInv, ClientsInv;
    NextKeepsInv(m.requests, StepOf(m, a));
    ProductsStay(m.requests.docs, Act(m, a).requests.docs, m.accepted, m.products);
  }

  lemma ActKeepsInv(m: Market, a: Action)
    requires MarketInv(m)
    ensures MarketInv(Act(m, a))
  {
    if a.Save? && Commits(m.requests, a.client, a.token) {
      SaveKeepsInv(m, a.client, a.token);
    } else if a.Approve? || a.Decline? {
      HandleKeepsInv(m, a);
    } else if a.Submit? {
      SubmitKeepsInv(m, a);
    } else if !a.AddProduct? {
      hide Inv, LogsInv, ProductsInv, FirstReview;
      NextKeepsInv(m.requests, StepOf(m, a));
    } else {
      hide Inv, LogsInv, ClientsInv;
    }
  }

  lemma {:induction false} ActAllKeepsInv(m: Market, actions: seq<Action>)
    requires MarketInv(m)
    ensures MarketInv(ActAll(m, actions))
    decreases |actions|
  {
    if actions != [] {
      ActKeepsInv(m, actions[0]);
      ActAllKeepsInv(Act(m, actions[0]), actions[1..]);
    }
  }

  // How often a request has been reviewed in its history.
  function Reviews(log: seq<Entry<Request>>): nat {
    if |log| < 2 then 0
    else Reviews(log[..|log| - 1]) + if log[|log| - 1].body.acception != log[|log| - 2].body.acception ||
                                        log[|log| - 1].body.rejection != log[|log| - 2].body.rejection then 1 else 0
  }

  // In every interleaving of reviewers a request is reviewed at most once and never both accepted
  // and rejected; at most one product comes from it; and a product that does belongs to an accepted
  // request, under the id the request stores.
  lemma SingleReview(actions: seq<Action>, id: Id)
    requires id in ActAll(EMPTY_MARKET, actions).requests.docs
    ensures var end := ActAll(EMPTY_MARKET, actions);
            var request := end.requests.docs[id].body;
            && id in end.requests.log && Reviews(end.requests.log[id]) <= 1
            && !(request.acception.Some? && request.rejection.Some?)
            && (Reviewed(request) <==> Reviews(end.requests.log[id]) == 1)
            && (forall p, q :: p in end.products && q in end.products && end.products[p] == id == end.products[q] ==> p == q)
            && (forall p :: p in end.products && end.products[p] == id ==>
                  request.acception.Some? && request.product.id == Some(p))
  {
    ActAllKeepsInv(EMPTY_MARKET, actions);
    var end := ActAll(EMPTY_MARKET, actions);
    assert DocInv(end.requests, id);
    assert LogInv(end.requests.log[id]);
    var log := end.requests.log[id];
    assert Reviews(log[..1]) == 0;
  }
}
