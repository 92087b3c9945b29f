/**
 * Closing a thread looks for its number in the name of the running operation. The search is for text, so it finds
 * every number that begins with the digits of the closed thread.
 */
module OperationNames {
  import opened Decimals
  import opened SyncOrchestrator

  /** The digits of a name are those of its thread, at the end. */
  lemma NameShape(op: Op)
    ensures forall i | 0 <= i < |Name(op)| :: IsDigit(Name(op)[i]) <==> i > |Kind(op)|
  {
    assert forall i | 0 <= i < |Kind(op)| :: !IsDigit(Kind(op)[i]);
  }

  /** An underscore and a number can stand in a name only behind its kind. */
  lemma OnlyPlace(op: Op, threadId: nat, i: int)
    requires OccursAt(Name(op), "_" + Decimal(threadId), i)
    ensures HasThread(op) && i == |Kind(op)|
  {
    var part := "_" + Decimal(threadId);
    assert part[0] == '_' && IsDigit(part[1]);
    NameShape(op);
    assert Name(op)[i + 0] == '_' && IsDigit(Name(op)[i + 1]);
  }

  /** A name mentions a thread exactly if the thread's number begins the number in the name. */
  lemma MentionsIff(op: Op, threadId: nat)
    ensures NameMentions(op, threadId) <==> HasThread(op) && DropsTo(op.threadId, threadId)
  {
    var name, part := Name(op), "_" + Decimal(threadId);
    if NameMentions(op, threadId) {
      var i :| OccursAt(name, part, i);
      OnlyPlace(op, threadId, i);
    }
    if HasThread(op) {
      var k := |Kind(op)|;
      DecimalPrefixIff(threadId, op.threadId);
      assert name[k..] == "_" + Decimal(op.threadId);
      UnderscoreDigits(name, k, Decimal(op.threadId), Decimal(threadId));
    }
  }

  lemma UnderscoreDigits(name: string, k: nat, digits: string, front: string)
    requires k <= |name| && name[k..] == "_" + digits
    ensures OccursAt(name, "_" + front, k) <==> front <= digits
  {
    var rest := name[k..];
    if |front| <= |digits| {
      assert name[k..k + 1 + |front|] == rest[..1 + |front|] == "_" + digits[..|front|];
      assert ("_" + digits[..|front|])[1..] == digits[..|front|];
      assert ("_" + front)[1..] == front;
    }
  }

  /** No thread numbered up to `n` is hit by closing another one, exactly if ten times the closed one exceeds `n`. */
  lemma HitsOnlyItselfIff(threadId: nat, n: nat)
    ensures (forall op | HasThread(op) && op.threadId <= n && NameMentions(op, threadId) :: op.threadId == threadId)
       <==> threadId == 0 || n < 10 * threadId
  {
    if threadId > 0 && 10 * threadId <= n {
      var op := BgFullSync(10 * threadId);
      assert op.threadId / 10 == threadId;
      assert DropsTo(op.threadId, threadId);
      MentionsIff(op, threadId);
      assert NameMentions(op, threadId);
    } else {
      forall op | HasThread(op) && op.threadId <= n && NameMentions(op, threadId) ensures op.threadId == threadId
      {
        MentionsIff(op, threadId);
        if op.threadId != threadId {
          DroppingShrinks(op.threadId, threadId);
        }
      }
    }
  }
}
