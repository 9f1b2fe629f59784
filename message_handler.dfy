/**
 * The message-storage handlers of the service (services/service/handler/message_handler.go):
 * a user message is written as one content row and two index rows, one per
 * conversation side; a group message as one content row and one index row per member.
 *
 * The request decoder, the database transaction and the response negotiation are
 * represented by their outcomes. The snowflake id generator is modelled by what the
 * handlers rely on: every id it hands out is larger than every id before it.
 */
module MessageHandler {
  import opened Wrappers
  import opened GoStrings

  /** The body of an insert request. */
  datatype Message = Message(mtype: int, body: string, extra: string)
  datatype InsertMessageReq = InsertMessageReq(sender: string, dest: string, sendTime: int, message: Message)

  /** A row of the content table: the message itself, stored once. */
  datatype MessageContent = MessageContent(id: int, mtype: byte, body: string, extra: string, sendTime: int)

  /** A row of the index table: one account's view of a message; direction 1 means sent. */
  datatype MessageIndex = MessageIndex(id: int, accountA: string, accountB: string, direction: int,
                                       messageID: int, group: string, sendTime: int)

  datatype GroupMember = GroupMember(account: string, group: string)

  /** What the handler answers: an HTTP error status, or the new message id. */
  datatype Reply = StopWithError(status: int) | Negotiated(messageId: int)

  const StatusBadRequest := 400
  const StatusInternalServerError := 500

  /** `byte(x)` of a Go integer: its low eight bits. */
  function ToByte(x: int): (b: byte)
    ensures 0 <= x < 256 ==> b == x
    ensures (x - b) % 256 == 0
  {
    x % 256
  }

  /** The content row of a request under a message id. */
  function ContentOf(req: InsertMessageReq, messageId: int): (c: MessageContent)
    ensures c.id == messageId && c.sendTime == req.sendTime
    ensures c.body == req.message.body && c.extra == req.message.extra
    ensures (c.mtype - req.message.mtype) % 256 == 0
  {
    MessageContent(messageId, ToByte(req.message.mtype), req.message.body, req.message.extra, req.sendTime)
  }

  /** The two index rows of a user message: the receiver's (direction 0) and the sender's (direction 1). */
  function UserIndexes(req: InsertMessageReq, messageId: int, id0: int, id1: int): (rows: seq<MessageIndex>)
    ensures |rows| == 2 && rows[0].id == id0 && rows[1].id == id1
    ensures forall r :: r in rows ==> r.messageID == messageId
  {
    [MessageIndex(id0, req.dest, req.sender, 0, messageId, "", req.sendTime),
     MessageIndex(id1, req.sender, req.dest, 1, messageId, "", req.sendTime)]
  }

  /**
   * The two rows of a user message are mirror images: each account sees the other as
   * its peer, exactly one side is the sender's, and both point at the same message.
   */
  lemma UserIndexesMirror(req: InsertMessageReq, messageId: int, id0: int, id1: int)
    ensures var rows := UserIndexes(req, messageId, id0, id1);
      |rows| == 2 &&
      rows[0].accountA == rows[1].accountB && rows[0].accountB == rows[1].accountA &&
      rows[0].accountA == req.dest && rows[1].accountA == req.sender &&
      rows[0].direction == 0 && rows[1].direction == 1 &&
      (forall r :: r in rows ==> r.messageID == messageId && r.sendTime == req.sendTime && r.group == "")
  {
  }

  /** One member's index row of a group message: direction 1 exactly for the sender's own row. */
  function GroupIndex(m: GroupMember, req: InsertMessageReq, messageId: int, id: int): (r: MessageIndex)
    ensures r.direction == 1 <==> m.account == req.sender
    ensures r.direction == 0 <==> m.account != req.sender
    ensures r.accountA == m.account && r.accountB == req.sender && r.group == m.group
    ensures r.id == id && r.messageID == messageId && r.sendTime == req.sendTime
  {
    MessageIndex(id, m.account, req.sender, if m.account == req.sender then 1 else 0, messageId, m.group, req.sendTime)
  }

  /** The index rows of a group message, one per member in member order, the k-th with the k-th id drawn. */
  function GroupIndexes(members: seq<GroupMember>, req: InsertMessageReq, messageId: int, ids: seq<int>): (rows: seq<MessageIndex>)
    requires |ids| == |members|
    ensures |rows| == |members|
    ensures forall i :: 0 <= i < |rows| ==> rows[i] == GroupIndex(members[i], req, messageId, ids[i])
  {
    seq(|members|, i requires 0 <= i < |members| => GroupIndex(members[i], req, messageId, ids[i]))
  }

  /** The ids are all above `lo` and strictly increase. */
  ghost predicate Ascending(ids: seq<int>, lo: int)
  {
    (forall i :: 0 <= i < |ids| ==> lo < ids[i]) &&
    (forall i, j :: 0 <= i < j < |ids| ==> ids[i] < ids[j])
  }

  /** The last of the ids, or `lo` when there is none. */
  function LastOr(ids: seq<int>, lo: int): (r: int)
    ensures ids == [] ==> r == lo
    ensures ids != [] ==> r == ids[|ids| - 1]
  {
    if ids == [] then lo else ids[|ids| - 1]
  }

  /**
   * The members a group query finds. The query is built from a struct condition, and
   * such a condition leaves out zero-valued fields: an empty group name matches every
   * member.
   */
  function MembersOf(table: seq<GroupMember>, group: string): (r: seq<GroupMember>)
    ensures |r| <= |table|
    ensures forall m :: m in r ==> m in table && (group != "" ==> m.group == group)
    ensures forall m :: m in table && (group == "" || m.group == group) ==> m in r
  {
    if table == [] then []
    else if group == "" || table[0].group == group then [table[0]] + MembersOf(table[1..], group)
    else MembersOf(table[1..], group)
  }

  /**
   * The rows of a group message built from ascending ids have ascending ids, all above
   * the message id and none above the last id drawn, so no two rows share one.
   */
  lemma GroupIndexIdsDistinct(members: seq<GroupMember>, req: InsertMessageReq, messageId: int, ids: seq<int>)
    requires |ids| == |members| && Ascending(ids, messageId)
    ensures var rows := GroupIndexes(members, req, messageId, ids);
      (forall i, j :: 0 <= i < j < |rows| ==> rows[i].id < rows[j].id) &&
      (forall i :: 0 <= i < |rows| ==> messageId < rows[i].id <= LastOr(ids, messageId))
  {
  }

  /**
   * The id generator as the handlers use it: each id it hands out is larger than the
   * one before. The generator itself counts up by one; the contract promises no more
   * than the snowflake generator does.
   */
  class IDGenerator {
    var last: int

    constructor (start: int)
      ensures last == start
    {
      last := start;
    }

    method Next() returns (id: int)
      modifies this
      ensures id > old(last) && last == id
    {
      last := last + 1;
      id := last;
    }
  }

  /** Every id of the rows is at most `bound`. */
  ghost predicate IdsAtMost(indexes: seq<MessageIndex>, contents: seq<MessageContent>, bound: int)
  {
    (forall i :: 0 <= i < |indexes| ==> indexes[i].id <= bound) &&
    (forall i :: 0 <= i < |contents| ==> contents[i].id <= bound)
  }

  /** No two index rows share an id, and no two content rows do. */
  ghost predicate IdsUnique(indexes: seq<MessageIndex>, contents: seq<MessageContent>)
  {
    (forall i, j :: 0 <= i < j < |indexes| ==> indexes[i].id != indexes[j].id) &&
    (forall i, j :: 0 <= i < j < |contents| ==> contents[i].id != contents[j].id)
  }

  /**
   * Appending rows whose ids are pairwise distinct and all above the old bound keeps
   * every id unique and below the new bound.
   */
  lemma AppendKeepsIdsUnique(indexes: seq<MessageIndex>, contents: seq<MessageContent>, bound: int,
                             newIndexes: seq<MessageIndex>, content: MessageContent, bound': int)
    requires IdsAtMost(indexes, contents, bound) && IdsUnique(indexes, contents)
    requires forall i :: 0 <= i < |newIndexes| ==> bound < newIndexes[i].id <= bound'
    requires forall i, j :: 0 <= i < j < |newIndexes| ==> newIndexes[i].id != newIndexes[j].id
    requires bound < content.id <= bound'
    ensures IdsAtMost(indexes + newIndexes, contents + [content], bound')
    ensures IdsUnique(indexes + newIndexes, contents + [content])
  {
    var all := indexes + newIndexes;
    forall i, j | 0 <= i < j < |all|
      ensures all[i].id != all[j].id
    {
      if j >= |indexes| && i < |indexes| {
        assert all[i].id <= bound < all[j].id;
      } else if i >= |indexes| {
        assert all[i] == newIndexes[i - |indexes|] && all[j] == newIndexes[j - |indexes|];
      }
    }
  }

  class ServiceHandler {
    const idGen: IDGenerator
    /** The base database's member table. */
    var groupMembers: seq<GroupMember>
    /** The message database's index and content tables. */
    var indexes: seq<MessageIndex>
    var contents: seq<MessageContent>

    /** Every stored id came from the generator, and none was stored twice. */
    ghost predicate Valid()
      reads this, idGen
    {
      IdsAtMost(indexes, contents, idGen.last) && IdsUnique(indexes, contents)
    }

    constructor (idGen: IDGenerator, groupMembers: seq<GroupMember>)
      ensures this.idGen == idGen && this.groupMembers == groupMembers
      ensures indexes == [] && contents == []
      ensures Valid()
    {
      this.idGen := idGen;
      this.groupMembers := groupMembers;
      indexes := [];
      contents := [];
    }

    /**
     * `InsertUserMessage`: an unreadable body is answered 400 and nothing else happens.
     * Otherwise the message id and then the two index ids are drawn; the transaction
     * stores both index rows and the content row, or nothing when it fails; a failed
     * transaction or negotiation is answered 500, and success returns the message id.
     * `ids` are the drawn ids, in the order they were drawn.
     */
    method InsertUserMessage(req: Option<InsertMessageReq>, txErr: Option<string>, negotiateErr: Option<string>)
      returns (reply: Reply, ghost ids: seq<int>)
      requires Valid()
      modifies this`indexes, this`contents, idGen
      ensures Valid()
      ensures req.None? ==> (reply == StopWithError(StatusBadRequest) && ids == [] &&
        idGen.last == old(idGen.last) && indexes == old(indexes) && contents == old(contents))
      ensures req.Some? ==> |ids| == 3 && Ascending(ids, old(idGen.last)) && idGen.last == ids[2]
      ensures req.Some? && txErr.None? ==>
        indexes == old(indexes) + UserIndexes(req.value, ids[0], ids[1], ids[2]) &&
        contents == old(contents) + [ContentOf(req.value, ids[0])]
      ensures req.Some? && txErr.Some? ==> indexes == old(indexes) && contents == old(contents)
      ensures req.Some? ==> (reply ==
        if txErr.None? && negotiateErr.None? then Negotiated(ids[0]) else StopWithError(StatusInternalServerError))
    {
      ids := [];
      if req.None? {
        return StopWithError(StatusBadRequest), ids;
      }
      var r := req.value;
      var messageId := idGen.Next();
      var content := ContentOf(r, messageId);
      var id0 := idGen.Next();
      var id1 := idGen.Next();
      ids := [messageId, id0, id1];
      var idxs := UserIndexes(r, messageId, id0, id1);
      if txErr.Some? {
        return StopWithError(StatusInternalServerError), ids;
      }
      AppendKeepsIdsUnique(indexes, contents, old(idGen.last), idxs, content, idGen.last);
      indexes := indexes + idxs;
      contents := contents + [content];
      if negotiateErr.Some? {
        return StopWithError(StatusInternalServerError), ids;
      }
      reply := Negotiated(messageId);
    }

    /**
     * The loop over the members: each gets an index row with the next id from the
     * generator, and the sender's own row has direction 1.
     */
    method NewGroupRows(members: seq<GroupMember>, r: InsertMessageReq, messageId: int)
      returns (rows: seq<MessageIndex>, ghost ids: seq<int>)
      requires idGen.last == messageId
      modifies idGen
      ensures |ids| == |members| && Ascending(ids, messageId) && idGen.last == LastOr(ids, messageId)
      ensures rows == GroupIndexes(members, r, messageId, ids)
    {
      var idxs := new MessageIndex[|members|];
      ids := [];
      for i := 0 to |members|
        invariant |ids| == i && Ascending(ids, messageId) && idGen.last == LastOr(ids, messageId)
        invariant forall k :: 0 <= k < i ==> idxs[k] == GroupIndex(members[k], r, messageId, ids[k])
      {
        var id := idGen.Next();
        ids := ids + [id];
        idxs[i] := MessageIndex(id, members[i].account, r.sender, 0, messageId, members[i].group, r.sendTime);
        if members[i].account == r.sender {
          idxs[i] := idxs[i].(direction := 1);
        }
      }
      rows := idxs[..];
    }

    /**
     * `InsertGroupMessage`: an unreadable body is answered 400. Otherwise the message id
     * is drawn first; a failed member query is answered 500. Each member found then gets
     * an index row with a fresh id, in member order, and the transaction stores them
     * with the content row, or nothing when it fails.
     */
    method InsertGroupMessage(req: Option<InsertMessageReq>, queryErr: Option<string>,
                              txErr: Option<string>, negotiateErr: Option<string>)
      returns (reply: Reply, ghost messageId: int, ghost ids: seq<int>)
      requires Valid()
      modifies this`indexes, this`contents, idGen
      ensures Valid()
      ensures req.None? ==> (reply == StopWithError(StatusBadRequest) &&
        idGen.last == old(idGen.last) && indexes == old(indexes) && contents == old(contents))
      ensures req.Some? ==> old(idGen.last) < messageId
      ensures req.Some? && queryErr.Some? ==> (reply == StopWithError(StatusInternalServerError) &&
        idGen.last == messageId && indexes == old(indexes) && contents == old(contents))
      ensures req.Some? && queryErr.None? ==> var members := MembersOf(groupMembers, req.value.dest);
        |ids| == |members| && Ascending(ids, messageId) && idGen.last == LastOr(ids, messageId) &&
        (txErr.None? ==> indexes == old(indexes) + GroupIndexes(members, req.value, messageId, ids) &&
                         contents == old(contents) + [ContentOf(req.value, messageId)]) &&
        (txErr.Some? ==> indexes == old(indexes) && contents == old(contents)) &&
        reply == if txErr.None? && negotiateErr.None? then Negotiated(messageId) else StopWithError(StatusInternalServerError)
    {
      messageId, ids := 0, [];
      if req.None? {
        return StopWithError(StatusBadRequest), messageId, ids;
      }
      var r := req.value;
      var mid := idGen.Next();
      messageId := mid;
      if queryErr.Some? {
        return StopWithError(StatusInternalServerError), messageId, ids;
      }
      var members := MembersOf(groupMembers, r.dest);
      var idxs;
      idxs, ids := NewGroupRows(members, r, mid);
      var content := ContentOf(r, mid);
      if txErr.Some? {
        return StopWithError(StatusInternalServerError), messageId, ids;
      }
      GroupIndexIdsDistinct(members, r, mid, ids);
      AppendKeepsIdsUnique(indexes, contents, old(idGen.last), idxs, content, idGen.last);
      indexes := indexes + idxs;
      contents := contents + [content];
      if negotiateErr.Some? {
        return StopWithError(StatusInternalServerError), messageId, ids;
      }
      reply := Negotiated(mid);
    }
  }

  /** A user message stores exactly two index rows, both for the new message. */
  method UserMessageStoresTwoRows(req: InsertMessageReq) returns (added: seq<MessageIndex>, reply: Reply)
    ensures |added| == 2 && added[0].accountA == req.dest && added[1].accountA == req.sender
    ensures reply.Negotiated? && forall r :: r in added ==> r.messageID == reply.messageId
  {
    var gen := new IDGenerator(0);
    var h := new ServiceHandler(gen, []);
    ghost var ids;
    reply, ids := h.InsertUserMessage(Some(req), None, None);
    added := h.indexes;
    UserIndexesMirror(req, ids[0], ids[1], ids[2]);
  }
}
