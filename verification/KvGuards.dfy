/** When each guarded command goes through, and what it answers, in terms of the entries alone. */
module KvGuards {
  import opened Prelude
  import opened Kv

  /** A guarded write wants the key to have the expected index, or to be absent when the expected index is 0. */
  predicate MayWrite(s: State, key: string, expected: nat) {
    if expected == 0 then key !in s.data else key in s.data && s.data[key].modifyIndex == expected
  }

  /** A guarded delete wants the key to be there with the expected index. */
  predicate MayDelete(s: State, key: string, expected: nat) {
    key in s.data && s.data[key].modifyIndex == expected
  }

  /** The expected index of one key of a batch; none given means 0. */
  function Given(indices: map<string, nat>, key: string): nat {
    if key in indices then indices[key] else 0
  }

  /** A refusal names the present index of the key, or says that there is none. */
  predicate Refuses(s: State, key: string, expected: nat, reply: Reply) {
    reply == Failed(if key in s.data then CASConflict(key, expected, s.data[key].modifyIndex) else NotFound(key))
  }

  lemma SetCasIff(s: State, step: Step)
    requires step.command.CmdSetCAS? && ValidStep(step)
    ensures var (t, r) := Apply(s, step);
            var key, expected := step.command.key, step.command.expected;
            if MayWrite(s, key, expected) then
              r == Indexed(s.index + 1) && t.index == s.index + 1
              && t.data == s.data[key := KVEntry(step.command.value, s.index + 1,
                                                 if expected == 0 then s.index + 1 else s.data[key].createIndex,
                                                 if expected == 0 then 0 else s.data[key].flags)]
            else t == s && Refuses(s, key, expected, r)
  {
  }

  lemma DeleteCasIff(s: State, step: Step)
    requires step.command.CmdDeleteCAS? && ValidStep(step)
    ensures var (t, r) := Apply(s, step);
            var key, expected := step.command.key, step.command.expected;
            if MayDelete(s, key, expected) then r == Done && t == s.(data := s.data - {key})
            else t == s && Refuses(s, key, expected, r)
  {
  }

  lemma {:induction false} WriteCheckIff(s: State, indices: map<string, nat>, order: seq<string>)
    ensures CheckSetAll(s, indices, order).None? <==> forall k :: k in order ==> MayWrite(s, k, Given(indices, k))
    ensures CheckSetAll(s, indices, order).Some? ==>
              exists k :: k in order && !MayWrite(s, k, Given(indices, k))
                          && Refuses(s, k, Given(indices, k), Failed(CheckSetAll(s, indices, order).value))
  {
    if |order| > 0 {
      var n := |order| - 1;
      WriteCheckIff(s, indices, order[..n]);
      assert order == order[..n] + [order[n]];
      assert order[n] in order;
    }
  }

  lemma {:induction false} DeleteCheckIff(s: State, indices: map<string, nat>, keys: seq<string>)
    ensures CheckDeleteAll(s, indices, keys).None? <==> forall k :: k in keys ==> MayDelete(s, k, Given(indices, k))
    ensures CheckDeleteAll(s, indices, keys).Some? ==>
              exists k :: k in keys && !MayDelete(s, k, Given(indices, k))
                          && Refuses(s, k, Given(indices, k), Failed(CheckDeleteAll(s, indices, keys).value))
  {
    if |keys| > 0 {
      var n := |keys| - 1;
      DeleteCheckIff(s, indices, keys[..n]);
      assert keys == keys[..n] + [keys[n]];
      assert keys[n] in keys;
    }
  }

  /** A guarded batch write goes through exactly when every item may be written, and is otherwise refused because of an
      item that may not. */
  lemma BatchSetCasIff(s: State, step: Step)
    requires step.command.CmdBatchSetCAS? && ValidStep(step)
    ensures var (t, r) := Apply(s, step);
            var items, indices := step.command.items, step.command.indices;
            && (r.IndexedAll? <==> forall k :: k in items ==> MayWrite(s, k, Given(indices, k)))
            && (!r.IndexedAll? ==>
                  t == s && exists k :: k in items && !MayWrite(s, k, Given(indices, k))
                                        && Refuses(s, k, Given(indices, k), r))
  {
    OrderInItems(step.schedule.check, step.command.items);
    WriteCheckIff(s, step.command.indices, step.schedule.check);
  }

  /** The same for a guarded batch delete, which takes away exactly the listed keys. */
  lemma BatchDeleteCasIff(s: State, step: Step)
    requires step.command.CmdBatchDeleteCAS? && ValidStep(step)
    ensures var (t, r) := Apply(s, step);
            var keys, indices := step.command.keys, step.command.indices;
            && (r == Done <==> forall k :: k in keys ==> MayDelete(s, k, Given(indices, k)))
            && (r == Done ==> t == s.(data := s.data - set k | k in keys))
            && (r != Done ==>
                  t == s && exists k :: k in keys && !MayDelete(s, k, Given(indices, k))
                                        && Refuses(s, k, Given(indices, k), r))
  {
    DeleteCheckIff(s, step.command.indices, step.command.keys);
    RemoveAllContents(s, step.command.keys);
  }
}
