/** What an acknowledgement means for the mutations the controller really runs: one write, always. */
module Acknowledgement {
  import opened Basics
  import opened Etcd
  import opened Config
  import opened CasProtocol
  import opened NodeRegistry
  import Keys

  ghost predicate IsAcknowledged<K, V, R, E>(s: System<K, V, R, E>, id: nat) {
    id in s.clients && s.clients[id].phase.Returned? && s.clients[id].phase.outcome.Acknowledged?
  }

  /** In every run over the config keys, a client whose swap returned nil has exactly one event in the
      log: no writer ever asks to delete a key it saw missing. */
  lemma EveryConfigAckIsOneWrite(clock: int, steps: seq<Step<Keys.Key, Request>>, id: nat)
    requires IsAcknowledged(Run(Mutate, clock, steps), id)
    ensures Commits(Run(Mutate, clock, steps).log, id) == 1
  {
    EveryRunIsExact(Mutate, clock, steps, id);
    var c := Run(Mutate, clock, steps).clients[id];
    var txn := c.phase.outcome.txn;
    EveryPutIsStamped(c.request, ValueOf(txn.seen), RevisionOf(txn.seen), txn.now);
  }

  /** The same over the node registry, whose writers never delete. */
  lemma EveryNodeAckIsOneWrite(clock: int, steps: seq<Step<string, NodeRequest>>, id: nat)
    requires IsAcknowledged(Run(MutateNode, clock, steps), id)
    ensures Commits(Run(MutateNode, clock, steps).log, id) == 1
  {
    EveryRunIsExact(MutateNode, clock, steps, id);
  }
}
