// Editing criteria trees under optimistic locking: what every edit keeps, all interleavings keep.
module ConcurrentEditing {
  import opened Common
  import opened Criteria
  import opened Store
  import Editing = CriteriaTree

  type Tree = seq<Criterion>

  function EditTree(e: Editing.Edit): Handler<Tree> {
    (t: Tree) => Editing.Apply(t, e)
  }

  ghost predicate TreeInv(now: Time, t: Tree) {
    Editing.TitlesUnique(t) && Editing.ClassificationsUnique(t) && Editing.IdsUnique(t)
  }

  datatype Action =
    | Create(id: Id, token: nat)
    | Open(client: ClientId, id: Id)
    | Change(client: ClientId, e: Editing.Edit)
    | Save(client: ClientId, token: nat)
    | Remove(id: Id)
    | Wait(elapsed: nat)

  function StepOf(a: Action): Step<Tree> {
    match a
    case Create(id, token) => Insert(id, [], token)
    case Open(client, id) => Read(client, id)
    case Change(client, e) => Handle(client, EditTree(e))
    case Save(client, token) => Commit(client, token)
    case Remove(id) => Delete(id)
    case Wait(elapsed) => Tick(elapsed)
  }

  function StepsOf(actions: seq<Action>): seq<Step<Tree>> {
    if actions == [] then [] else [StepOf(actions[0])] + StepsOf(actions[1..])
  }

  lemma StepIsKept(now: Time, a: Action)
    ensures KeptBy(TreeInv, now, StepOf(a))
  {
    var s := StepOf(a);
    if a.Create? {
      assert OfTree([]) == [];
    } else if a.Change? {
      hide Editing.TitlesUnique, Editing.ClassificationsUnique, Editing.IdsUnique, Editing.Apply;
      forall t | TreeInv(now, t) && s.handler(t).Some?
        ensures TreeInv(now, s.handler(t).value)
      {
        Editing.EditKeepsTitles(t, a.e);
        Editing.EditKeepsClassifications(t, a.e);
      }
    }
  }

  lemma {:induction false} StepsAreKept(w: World<Tree>, actions: seq<Action>)
    ensures AllKept(TreeInv, w, StepsOf(actions))
    decreases |actions|
  {
    hide KeptBy, Next, StepOf;
    if actions != [] {
      StepIsKept(w.now, actions[0]);
      StepsAreKept(Next(w, StepOf(actions[0])), actions[1..]);
      assert StepsOf(actions)[1..] == StepsOf(actions[1..]);
    }
  }

  // In every interleaving of clients that edit, at every moment, the requirement titles of a stored tree
  // are unique, and so are the classifications and the ids of its criteria.
  lemma TreesStayUnique(actions: seq<Action>, id: Id)
    requires id in Run(Empty(), StepsOf(actions)).docs
    ensures var t := Run(Empty(), StepsOf(actions)).docs[id].body;
            Editing.TitlesUnique(t) && Editing.ClassificationsUnique(t) && Editing.IdsUnique(t)
  {
    hide Run, AllKept, StepsOf;
    StepsAreKept(Empty(), actions);
    LiftInvariant(TreeInv, Empty(), StepsOf(actions));
  }
}
