// Whether the consumers of the configuration stand at the revision that is active. An
// activation sets them to it; a rollback leaves them where they were.
module ConsumerAcknowledgement {
  import opened Wrappers
  import opened Preconditions
  import opened Configuration
  import opened ConfigurationTheorems

  // Some key of the catalog names the consumer.
  ghost predicate Consumes(g: Setting, x: string) {
    exists k :: k in g.catalog && x in g.catalog[k].consumers
  }

  // Every consumer wants, has and acknowledges the active revision.
  ghost predicate InStep(g: Setting, c: Config) {
    && c.pointer.Some?
    && forall x :: Consumes(g, x) ==>
         && x in c.consumers
         && c.consumers[x].desired == c.pointer.value.active
         && c.consumers[x].applied == Some(c.pointer.value.active)
         && c.consumers[x].acked
  }

  lemma ConsumersAre(g: Setting, x: string)
    ensures x in Consumers(g.catalog) <==> Consumes(g, x)
  {
  }

  // An activation succeeds exactly when the request names the active revision and the one
  // to activate is validated, or is active already. It then leaves that revision active,
  // the previous one as the last known good, no candidate, and all consumers in step,
  // stored errors included; unless it was active already, when nothing changes.
  lemma ActivationExactly(g: Setting, c: Config, header: IfMatch, r: int)
    requires Sound(g, c) && c.pointer.Some?
    ensures var (after, answer) := ActivateConfiguration(g, c, header, r);
            var current := c.pointer.value.active;
            && (answer == Done <==>
                  && header == Names(current) && r in c.revisions
                  && (c.revisions[r].phase == VALIDATED || r == current))
            && (answer != Done || r == current ==> after == c)
            && (answer == Done && r != current ==>
                  && after.pointer == Some(Pointer(r, current, None))
                  && r in c.revisions && after.revisions == c.revisions[r := c.revisions[r].(phase := ACTIVE)]
                  && after.values == c.values && after.audit == c.audit + [Event("CONFIG_ACTIVATED", r)]
                  && InStep(g, after)
                  && (forall x :: x in c.consumers ==>
                        && x in after.consumers && after.consumers[x].error == c.consumers[x].error
                        && (!Consumes(g, x) ==> after.consumers[x] == c.consumers[x])))
  {
    assert c.pointer.value.active in c.revisions && c.revisions[c.pointer.value.active].phase == ACTIVE;
    hide Sound;
    forall x
      ensures x in Consumers(g.catalog) <==> Consumes(g, x)
    {
      ConsumersAre(g, x);
    }
    hide Consumers;
    hide Consumes;
  }

  ghost predicate RollsBack(g: Setting, root: Option<string>, c: Config, request: Request) {
    request.Rollback? && Serve(g, root, c, request).1 == Done
  }

  lemma RollbackLeavesConsumers(g: Setting, root: Option<string>, c: Config, header: IfMatch, source: int)
    requires Sound(g, c) && c.pointer.Some? && RollbackConfiguration(g, root, c, header, source).1 == Done
    ensures var after := RollbackConfiguration(g, root, c, header, source).0;
            && after.consumers == c.consumers && after.pointer.Some?
            && after.pointer.value.active == c.next > c.pointer.value.active
  {
    assert RevisionSound(g, c, c.pointer.value.active);
    hide SomeReads;
    hide Copies;
    hide Sound;
  }

  // The exact condition for one request, where some key has a consumer.
  lemma StepInStepExactly(g: Setting, root: Option<string>, c: Config, request: Request, x: string)
    requires Sound(g, c) && InStep(g, c) && Consumes(g, x)
    ensures InStep(g, Serve(g, root, c, request).0) <==> !RollsBack(g, root, c, request)
  {
    hide Sound;
    hide Consumes;
    hide PutCandidate;
    hide ValidateCandidate;
    hide ActivateConfiguration;
    hide RollbackConfiguration;
    match request {
      case Put(header, base, items) => PutLeavesConsumers(g, root, c, header, base, items);
      case Validate => ValidateLeavesConsumers(g, root, c);
      case Activate(header, r) => ActivationExactly(g, c, header, r);
      case Rollback(header, source) =>
        if RollbackConfiguration(g, root, c, header, source).1 == Done {
          RollbackLeavesConsumers(g, root, c, header, source);
        } else {
          RollbackSucceedsExactly(g, root, c, header, source);
        }
    }
  }

  lemma PutLeavesConsumers(g: Setting, root: Option<string>, c: Config, header: IfMatch, base: int, items: seq<Item>)
    requires c.pointer.Some?
    ensures var after := PutCandidate(g, root, c, header, base, items).0;
            && after.consumers == c.consumers
            && after.pointer.Some? && after.pointer.value.active == c.pointer.value.active
  {
    hide Drafted;
  }

  lemma ValidateLeavesConsumers(g: Setting, root: Option<string>, c: Config)
    ensures var after := ValidateCandidate(g, root, c).0;
            after.consumers == c.consumers && after.pointer == c.pointer
  {
    hide SomeBreak;
    hide AllPass;
  }

  ghost predicate InStepThroughout(g: Setting, c: Config, calls: seq<Call>) {
    forall n :: 0 <= n <= |calls| ==> InStep(g, RunOf(g, c, calls[..n]))
  }

  ghost predicate RollsBackAt(g: Setting, c: Config, calls: seq<Call>, n: nat)
    requires n < |calls|
  {
    RollsBack(g, calls[n].root, RunOf(g, c, calls[..n]), calls[n].request)
  }

  // Over a run the consumers are in step all along if and only if no rollback succeeds.
  lemma {:induction false} RunInStepExactly(g: Setting, c: Config, calls: seq<Call>, x: string)
    requires Sound(g, c) && InStep(g, c) && Consumes(g, x)
    ensures InStepThroughout(g, c, calls) <==> forall n :: 0 <= n < |calls| ==> !RollsBackAt(g, c, calls, n)
  {
    hide Serve;
    hide Sound;
    hide InStep;
    hide RollsBack;
    if calls == [] {
      assert calls[..0] == calls;
    } else {
      var n := |calls| - 1;
      var before := calls[..n];
      RunInStepExactly(g, c, before, x);
      RunSound(g, c, before);
      assert forall k :: 0 <= k <= n ==> before[..k] == calls[..k];
      assert before[..|before|] == before && calls[..|calls|] == calls;
      assert forall k :: 0 <= k < n ==> (RollsBackAt(g, c, before, k) <==> RollsBackAt(g, c, calls, k));
      if InStepThroughout(g, c, before) {
        assert InStep(g, RunOf(g, c, before[..|before|]));
        StepInStepExactly(g, calls[n].root, RunOf(g, c, before), calls[n].request, x);
        assert InStep(g, RunOf(g, c, calls)) <==> !RollsBackAt(g, c, calls, n);
      }
      hide RollsBackAt;
      assert InStepThroughout(g, c, calls) <==> InStepThroughout(g, c, before) && InStep(g, RunOf(g, c, calls));
      assert (forall k :: 0 <= k < |calls| ==> !RollsBackAt(g, c, calls, k)) <==>
             (forall k :: 0 <= k < n ==> !RollsBackAt(g, c, calls, k)) && !RollsBackAt(g, c, calls, n);
    }
  }
}
