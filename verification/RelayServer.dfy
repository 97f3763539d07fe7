/** The relay server's critical sections as the code has them: objects changed in place. Each method is one
    lock section and is specified by the operation of `RelayHub` that the matching step performs. */
module RelayServer {
  import opened RelayHub

  class Member {
    const reg: Register
    var out: seq<Msg>
    var closed: bool

    constructor (reg: Register)
      ensures this.reg == reg && out == [] && !closed
    {
      this.reg := reg;
      out, closed := [], false;
    }
  }

  class MemberRoom {
    const key: string
    var members: map<string, Member>

    constructor (key: string)
      ensures this.key == key && members == map[] && Valid()
    {
      this.key := key;
      members := map[];
    }

    ghost predicate Valid()
      reads this
    {
      forall id :: id in members ==> members[id].reg.peerId == id
    }

    /** Closes the session that holds the ID, lists the others in some order, and inserts `m`. */
    method Insert(m: Member) returns (existing: seq<Info>, ghost order: seq<string>)
      requires Valid() && (forall id :: id in members ==> members[id] != m)
      modifies this, set id | id in members :: members[id]
      ensures Valid() && members == Inserted(old(members), m.reg.peerId, m)
      ensures Enumerates(order, old(members).Keys - {m.reg.peerId}) && |existing| == |order|
      ensures forall i :: 0 <= i < |order| ==>
                order[i] in old(members) &&
                var other := old(members)[order[i]].reg; existing[i] == Info(other.peerId, other.role, other.direction)
      ensures forall id :: id in old(members) ==>
                var x := old(members)[id]; x.out == old(x.out) && x.closed == (old(x.closed) || id == m.reg.peerId)
    {
      var id := m.reg.peerId;
      if id in members {
        members[id].closed := true;
        members := members - {id};
      }
      existing, order := [], [];
      var todo := members.Keys;
      while todo != {}
        invariant members == old(members) - {id} && todo <= members.Keys
        invariant Enumerates(order, members.Keys - todo) && |existing| == |order|
        invariant forall i :: 0 <= i < |order| ==> order[i] in members && existing[i] == InfoOf(members[order[i]].reg)
      {
        var next :| next in todo;
        existing, order, todo := existing + [InfoOf(members[next].reg)], order + [next], todo - {next};
      }
      members := members[id := m];
    }

    /** Writes `msg` to every member but the one under `but`. */
    method WriteAll(msg: Msg, but: set<string>)
      requires Valid()
      modifies set id | id in members :: members[id]`out
      ensures forall id :: id in members ==>
                members[id].out == old(members[id].out) + if id in but then [] else [msg]
    {
      var todo := members.Keys - but;
      while todo != {}
        invariant todo <= members.Keys - but
        invariant forall id :: id in members ==>
                    members[id].out == old(members[id].out) + if id in but || id in todo then [] else [msg]
      {
        var next :| next in todo;
        members[next].out := members[next].out + [msg];
        todo := todo - {next};
      }
    }

    /** `forward` under the room mutex; `ok` is whether the write to the target succeeds. */
    method Forward(from: string, d: Data, ok: bool) returns (delivered: bool)
      requires Valid()
      modifies set id | id in members :: members[id]
      ensures delivered <==> d.to in members && d.to != from
      ensures forall id :: id in members ==>
                var x := members[id];
                if delivered && id == d.to
                then x.out == old(x.out) + [Deliver(from, d.msgType, d.payload)] && x.closed == (old(x.closed) || !ok)
                else x.out == old(x.out) && x.closed == old(x.closed)
    {
      if d.to !in members || members[d.to].reg.peerId == from {
        return false;
      }
      var target := members[d.to];
      target.out := target.out + [Deliver(from, d.msgType, d.payload)];
      if !ok {
        target.closed := true;
      }
      return true;
    }

    /** The middle section of `removeMemberIf`. */
    method RemoveIf(m: Member) returns (removed: bool, empty: bool)
      requires Valid()
      modifies this
      ensures Valid()
      ensures removed <==> Holds(old(members), m.reg.peerId, m)
      ensures members == if removed then Without(old(members), m.reg.peerId) else old(members)
      ensures empty <==> members == map[]
    {
      var id := m.reg.peerId;
      removed := id in members && members[id] == m;
      if removed {
        members := members - {id};
      }
      empty := |members| == 0;
    }
  }

  class Server {
    var rooms: map<string, MemberRoom>

    /** Finds or creates the room of a key. */
    method Lookup(rk: string) returns (rm: MemberRoom)
      modifies this
      ensures rk in rooms && rooms[rk] == rm && rooms == old(rooms)[rk := rm]
      ensures rk in old(rooms) ==> rm == old(rooms)[rk]
      ensures rk !in old(rooms) ==> fresh(rm) && rm.key == rk && rm.members == map[] && rm.Valid()
    {
      if rk !in rooms {
        rm := new MemberRoom(rk);
        rooms := rooms[rk := rm];
      }
      rm := rooms[rk];
    }

    /** `removeMemberIf` when nothing runs between its three sections: the member goes if and only if it is
        still the mapped session, nobody else does, and a key is unmapped only when its room is empty. */
    method RemoveMemberIf(rk: string, m: Member) returns (removed: bool)
      requires rk in rooms ==> rooms[rk].Valid()
      modifies this, if rk in rooms then {rooms[rk]} else {}
      ensures removed <==> rk in old(rooms) && Holds(old(rooms[rk].members), m.reg.peerId, m)
      ensures rk in old(rooms) ==>
                var rm := old(rooms)[rk];
                && rm.Valid()
                && rm.members == (if removed then Without(old(rm.members), m.reg.peerId) else old(rm.members))
                && rooms == if rm.members == map[] then Without(old(rooms), rk) else old(rooms)
      ensures rk !in old(rooms) ==> rooms == old(rooms)
    {
      if rk !in rooms {
        return false;
      }
      var rm := rooms[rk];
      var empty;
      removed, empty := rm.RemoveIf(m);
      if empty {
        rooms := rooms - {rk};
      }
    }
  }
}
