/** The echo server's client list in place: singly linked nodes, the newest first. */
module EchoState {
  import opened Wrappers
  import opened EchoProtocol
  import opened EchoServer

  class ClientNode {
    const key: Key
    var counter: nat
    var next: ClientNode?

    constructor (key: Key, counter: nat, next: ClientNode?)
      ensures this.key == key && this.counter == counter && this.next == next
    {
      this.key, this.counter, this.next := key, counter, next;
    }
  }

  ghost function After(nodes: seq<ClientNode>, i: nat): ClientNode? {
    if i < |nodes| then nodes[i] else null
  }

  /** `nodes` are the nodes of the list in order and `table` the counters they stand for. */
  class ServerState {
    var clients: ClientNode?
    ghost var nodes: seq<ClientNode>
    ghost var table: Table

    /** Node i of the list, or its end. */
    ghost function NodeAt(i: nat): ClientNode?
      reads this
    {
      After(nodes, i)
    }

    ghost predicate Linked()
      reads this, nodes
    {
      clients == NodeAt(0) && forall i: nat {:trigger nodes[i].next} :: i < |nodes| ==> nodes[i].next == NodeAt(i + 1)
    }

    /** One node for each client. */
    ghost predicate NoTwo()
      reads this
    {
      forall i, j :: 0 <= i < j < |nodes| ==> nodes[i] != nodes[j] && nodes[i].key != nodes[j].key
    }

    ghost predicate Counts()
      reads this, nodes
    {
      && (forall i :: 0 <= i < |nodes| ==>
            nodes[i].key in table && table[nodes[i].key] == nodes[i].counter && 1 <= nodes[i].counter <= COUNTER_MAX)
      && (forall key :: key in table ==> exists i :: 0 <= i < |nodes| && nodes[i].key == key)
    }

    ghost predicate Valid()
      reads this, nodes
    {
      Linked() && NoTwo() && Counts()
    }

    constructor ()
      ensures Valid() && table == map[] && nodes == []
    {
      clients, nodes, table := null, [], map[];
    }

    /** Walk the list to a client's node, remembering the node before it. */
    method FindClient(key: Key) returns (client: ClientNode?, previous: ClientNode?, ghost i: nat)
      requires Valid()
      ensures client == null <==> key !in table
      ensures client != null ==>
                i < |nodes| && client == nodes[i] && client.key == key && previous == (if i == 0 then null else nodes[i - 1])
    {
      hide ServerState.NoTwo, ServerState.Counts;
      previous, client, i := null, clients, 0;
      while client != null && client.key != key
        invariant i <= |nodes| && client == NodeAt(i) && previous == (if i == 0 then null else nodes[i - 1])
        invariant forall j :: 0 <= j < i ==> nodes[j].key != key
        decreases |nodes| - i
      {
        previous, client, i := client, client.next, i + 1;
      }
      InTableIffListed(key);
    }

    lemma InTableIffListed(key: Key)
      requires Valid()
      ensures key in table <==> exists j :: 0 <= j < |nodes| && nodes[j].key == key
    {
      hide ServerState.NoTwo, ServerState.Linked;
    }

    lemma CountersAreOk()
      requires Valid()
      ensures forall key :: key in table ==> 1 <= table[key] <= COUNTER_MAX
    {
      hide ServerState.NoTwo, ServerState.Linked;
    }

    /** server_state_next_counter. */
    method NextCounter(key: Key) returns (ok: bool, counter: nat)
      requires Valid()
      modifies this, nodes
      ensures Valid() && (table, counter) == EchoServer.NextCounter(old(table), key) && ok == (counter != 0)
      ensures forall n :: n in nodes ==> n in old(nodes) || fresh(n)
    {
      hide ServerState.Valid;
      var client, previous, i := FindClient(key);
      if client != null {
        AtIndex(i);
        if client.counter == COUNTER_MAX {
          return false, 0;
        }
        counter := Increment(client, i);
        return true, counter;
      }
      PushNode(key);
      return true, 1;
    }

    lemma AtIndex(i: nat)
      requires Valid() && i < |nodes|
      ensures nodes[i].key in table && table[nodes[i].key] == nodes[i].counter && 1 <= nodes[i].counter <= COUNTER_MAX
    {
      hide ServerState.NoTwo, ServerState.Linked;
    }

    method Increment(client: ClientNode, ghost i: nat) returns (counter: nat)
      requires Valid() && i < |nodes| && client == nodes[i] && client.counter < COUNTER_MAX
      modifies this`table, client`counter
      ensures Valid() && counter == old(client.counter) + 1 && table == old(table)[client.key := counter]
    {
      client.counter := client.counter + 1;
      table := table[client.key := client.counter];
      counter := client.counter;
      assert Linked() && NoTwo();
    }

    method PushNode(key: Key)
      requires Valid() && key !in table
      modifies this
      ensures Valid() && table == old(table)[key := 1]
      ensures forall n :: n in nodes ==> n in old(nodes) || fresh(n)
    {
      hide ServerState.Linked, ServerState.NoTwo, ServerState.Counts;
      InTableIffListed(key);
      Listed();
      var client := new ClientNode(key, 1, clients);
      ghost var before := nodes;
      nodes := [client] + nodes;
      table := table[key := 1];
      clients := client;
      assert nodes[1..] == before;
      PushedLinks(before);
      PushedNoTwo(before);
      PushedCounts(before, old(table), key);
    }

    lemma PushedLinks(before: seq<ClientNode>)
      requires nodes != [] && nodes[1..] == before && clients == nodes[0]
      requires nodes[0].next == After(before, 0)
      requires forall i: nat {:trigger before[i].next} :: i < |before| ==> before[i].next == After(before, i + 1)
      ensures Linked()
    {
      forall i: nat | i < |nodes| ensures nodes[i].next == NodeAt(i + 1) {
        if i > 0 {
          assert nodes[i] == before[i - 1];
        }
      }
    }

    lemma PushedNoTwo(before: seq<ClientNode>)
      requires nodes != [] && nodes[1..] == before && nodes[0] !in before
      requires forall i, j :: 0 <= i < j < |before| ==> before[i] != before[j] && before[i].key != before[j].key
      requires forall i :: 0 <= i < |before| ==> before[i].key != nodes[0].key
      ensures NoTwo()
    {
      forall i, j | 0 <= i < j < |nodes| ensures nodes[i] != nodes[j] && nodes[i].key != nodes[j].key {
        assert nodes[j] == before[j - 1];
        if i > 0 {
          assert nodes[i] == before[i - 1];
        }
      }
    }

    lemma PushedCounts(before: seq<ClientNode>, earlier: Table, key: Key)
      requires nodes != [] && nodes[1..] == before && nodes[0].key == key && nodes[0].counter == 1
      requires key !in earlier && table == earlier[key := 1]
      requires forall i :: 0 <= i < |before| ==>
        before[i].key in earlier && earlier[before[i].key] == before[i].counter && 1 <= before[i].counter <= COUNTER_MAX
      requires forall k :: k in earlier ==> exists i :: 0 <= i < |before| && before[i].key == k
      ensures Counts()
    {
      forall k | k in table ensures exists i :: 0 <= i < |nodes| && nodes[i].key == k {
        if k == key {
          assert nodes[0].key == k;
        } else {
          var i :| 0 <= i < |before| && before[i].key == k;
          assert nodes[i + 1].key == k;
        }
      }
    }

    /** server_state_remove_client, unlinking through the link that led to the node. */
    method RemoveClient(key: Key) returns (removed: bool)
      requires Valid()
      modifies this, nodes
      ensures Valid() && table == old(table) - {key} && removed == (key in old(table))
      ensures forall n :: n in nodes ==> n in old(nodes)
    {
      hide ServerState.Valid;
      var client, previous, i := FindClient(key);
      if client == null {
        return false;
      }
      Unlink(previous, client, i);
      removed := true;
    }

    /** Lead the link to a node past it. */
    method Relink(previous: ClientNode?, client: ClientNode, ghost i: nat)
      requires Valid() && i < |nodes| && client == nodes[i] && previous == (if i == 0 then null else nodes[i - 1])
      modifies this`clients, this`nodes, this`table, (if previous == null then {} else {previous})`next
      ensures Linked() && NoTwo() && nodes == old(nodes[..i] + nodes[i + 1..]) && table == old(table) - {client.key}
    {
      hide ServerState.Linked, ServerState.NoTwo, ServerState.Counts;
      ghost var before := nodes;
      Listed();
      if previous == null {
        clients := client.next;
      } else {
        previous.next := client.next;
      }
      nodes, table := before[..i] + before[i + 1..], table - {client.key};
      forall j: nat {:trigger before[j].next} | j < |before| && j != i
        ensures before[j].next == After(before, if j + 1 == i then j + 2 else j + 1)
      {
        assert j + 1 == i || previous == null || before[j] != previous;
      }
      UnlinkedLinks(before, i);
      UnlinkedNoTwo(before, i);
    }

    method Unlink(previous: ClientNode?, client: ClientNode, ghost i: nat)
      requires Valid() && i < |nodes| && client == nodes[i] && previous == (if i == 0 then null else nodes[i - 1])
      modifies this, nodes
      ensures Valid() && table == old(table) - {client.key} && nodes == old(nodes[..i] + nodes[i + 1..])
    {
      hide ServerState.Linked, ServerState.NoTwo, ServerState.Counts;
      ghost var before := nodes;
      Listed();
      Relink(previous, client, i);
      UnlinkedCounts(before, old(table), i);
    }

    lemma Listed()
      requires Valid()
      ensures clients == After(nodes, 0)
      ensures forall j: nat {:trigger nodes[j].next} :: j < |nodes| ==> nodes[j].next == After(nodes, j + 1)
      ensures forall j, k :: 0 <= j < k < |nodes| ==> nodes[j] != nodes[k] && nodes[j].key != nodes[k].key
      ensures forall j :: 0 <= j < |nodes| ==>
        nodes[j].key in table && table[nodes[j].key] == nodes[j].counter && 1 <= nodes[j].counter <= COUNTER_MAX
      ensures forall k :: k in table ==> exists j :: 0 <= j < |nodes| && nodes[j].key == k
    {
    }

    lemma UnlinkedLinks(before: seq<ClientNode>, i: nat)
      requires i < |before| && nodes == before[..i] + before[i + 1..]
      requires clients == if i == 0 then After(before, 1) else before[0]
      requires forall j: nat {:trigger before[j].next} :: j < |before| && j != i ==>
        before[j].next == After(before, if j + 1 == i then j + 2 else j + 1)
      ensures Linked()
    {
      forall j: nat | j < |nodes| ensures nodes[j].next == NodeAt(j + 1) {
        assert nodes[j] == before[if j < i then j else j + 1];
      }
    }

    lemma UnlinkedNoTwo(before: seq<ClientNode>, i: nat)
      requires i < |before| && nodes == before[..i] + before[i + 1..]
      requires forall j, k :: 0 <= j < k < |before| ==> before[j] != before[k] && before[j].key != before[k].key
      ensures NoTwo()
    {
      forall j, k | 0 <= j < k < |nodes| ensures nodes[j] != nodes[k] && nodes[j].key != nodes[k].key {
        assert nodes[j] == before[if j < i then j else j + 1] && nodes[k] == before[if k < i then k else k + 1];
      }
    }

    lemma UnlinkedCounts(before: seq<ClientNode>, earlier: Table, i: nat)
      requires i < |before| && nodes == before[..i] + before[i + 1..] && table == earlier - {before[i].key}
      requires forall j, k :: 0 <= j < k < |before| ==> before[j].key != before[k].key
      requires forall j :: 0 <= j < |before| ==>
        before[j].key in earlier && earlier[before[j].key] == before[j].counter && 1 <= before[j].counter <= COUNTER_MAX
      requires forall k :: k in earlier ==> exists j :: 0 <= j < |before| && before[j].key == k
      ensures Counts()
    {
      forall key | key in table ensures exists j :: 0 <= j < |nodes| && nodes[j].key == key {
        var k :| 0 <= k < |before| && before[k].key == key;
        assert nodes[if k < i then k else k - 1].key == key;
      }
    }

    /** server_handle_message. */
    method HandleMessage(key: Key, request: Message) returns (ok: bool, response: Option<Message>)
      requires Valid()
      modifies this, nodes
      ensures Valid() && (table, response) == EchoServer.HandleMessage(old(table), key, request)
      ensures ok == (response.Some? || IsClose(request))
      ensures forall n :: n in nodes ==> n in old(nodes) || fresh(n)
    {
      hide ServerState.Valid, EchoServer.NextCounter;
      if request.kind == CLOSE {
        if request.counter != 0 || |request.payload| != 0 {
          return false, None;
        }
        var removed := RemoveClient(key);
        return true, None;
      }
      if request.kind != REQUEST || request.counter != 0 || |request.payload| > PAYLOAD_MAX {
        return false, None;
      }
      var next, counter := NextCounter(key);
      if !next {
        return false, None;
      }
      return true, Some(Message(RESPONSE, counter, request.payload));
    }
  }
}
