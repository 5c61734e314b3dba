/** The system manager's tables in shared memory, searched and changed in place. */
module SystemManager {
  import opened Outcomes
  import opened Registry

  const MAX_NODES: nat := 50

  datatype TopicInfo = TopicInfo(name: Name, active: bool)
  datatype NodeInfo = NodeInfo(name: Name, pid: int, active: bool)

  function Truncated(s: Name, n: nat): Name {
    if |s| <= n then s else s[..n]
  }

  /** `strncmp(stored, name, 64) == 0` */
  predicate Matches(stored: Name, name: Name) {
    Truncated(stored, 64) == Truncated(name, 64)
  }

  /** An entry always holds its terminating zero, so it matches only its own name: one
      longer than it never matches, even if it was stored for that name. */
  lemma MatchIsEquality(stored: Name, name: Name)
    requires |stored| <= NAME_BYTES
    ensures Matches(stored, name) <==> stored == name
    ensures Matches(Stored(name), name) <==> |name| <= NAME_BYTES
  {
    if |name| > NAME_BYTES {
      assert |Truncated(name, 64)| == 64;
    }
  }

  function NamesIn(infos: seq<TopicInfo>): (names: seq<Name>)
    ensures |names| == |infos|
    ensures forall i :: 0 <= i < |infos| ==> names[i] == infos[i].name
  {
    seq(|infos|, i requires 0 <= i < |infos| => infos[i].name)
  }

  class SystemManager {
    var topicCount: nat
    const topics: array<TopicInfo>
    /** The shared memory files of the system, and the objects behind them. */
    var files: map<Name, nat>
    var subscribers: map<nat, nat>
    var objects: nat
    var nodeCount: int
    const nodes: array<NodeInfo>

    ghost predicate Valid()
      reads this, topics, nodes
    {
      && topics.Length == MAX_TOPICS && topicCount <= MAX_TOPICS
      && (forall i :: 0 <= i < topicCount ==> topics[i].active && |topics[i].name| <= NAME_BYTES)
      && nodes.Length == MAX_NODES && nodeCount == |LiveNodes()|
    }

    ghost function View(): Shared
      reads this, topics
      requires topicCount <= topics.Length
    {
      Shared(NamesIn(topics[..topicCount]), files, subscribers, objects)
    }

    ghost function LiveNodes(): set<int>
      reads nodes
    {
      set i | 0 <= i < nodes.Length && nodes[i].active
    }

    /** The shared memory as first created: zeros, beside whatever files there are. */
    constructor (files: map<Name, nat>, objects: nat)
      ensures Valid() && fresh(topics) && fresh(nodes)
      ensures View() == Shared([], files, map[], objects) && LiveNodes() == {}
    {
      topicCount, nodeCount := 0, 0;
      topics := new TopicInfo[MAX_TOPICS](i => TopicInfo([], false));
      nodes := new NodeInfo[MAX_NODES](i => NodeInfo([], 0, false));
      this.files, this.objects, subscribers := files, objects, map[];
    }

    /** The entry a name is registered under. */
    method FindTopic(name: Name) returns (found: bool)
      requires Valid()
      ensures found <==> IsRegistered(View(), name)
    {
      var i := 0;
      while i < topicCount
        invariant i <= topicCount
        invariant forall j :: 0 <= j < i ==> topics[j].name != name
      {
        MatchIsEquality(topics[i].name, name);
        if topics[i].active && Matches(topics[i].name, name) {
          assert View().topics[i] == name;
          return true;
        }
        i := i + 1;
      }
      return false;
    }

    /** Opens the shared memory of a registered topic; a publisher creates the missing
        one, on top of a file that an earlier life of the system left behind. */
    method CreateOrGetTopic(name: Name, isPublisher: bool) returns (r: Option<nat>)
      requires Valid()
      modifies this`topicCount, this`files, this`subscribers, this`objects, topics
      ensures Valid() && LiveNodes() == old(LiveNodes())
      ensures var (found, id) := CreateOrGet(old(View()), name, isPublisher);
              r == id && View() == if id.Some? && !isPublisher then Subscribe(found, id.value) else found
    {
      var file := FileOf(name);
      var found := FindTopic(name);
      if found {
        if file !in files {
          return None;
        }
        var id := files[file];
        if !isPublisher {
          subscribers := subscribers[id := (if id in subscribers then subscribers[id] else 0) + 1];
        }
        return Some(id);
      }
      if !isPublisher || topicCount >= MAX_TOPICS {
        return None;
      }
      var id := CreateTopic(name, file);
      return Some(id);
    }

    /** Creates the file, unlinking one that is in the way, and the entry. */
    method CreateTopic(name: Name, file: Name) returns (id: nat)
      requires Valid() && topicCount < MAX_TOPICS
      modifies this`topicCount, this`files, this`subscribers, this`objects, topics
      ensures Valid() && LiveNodes() == old(LiveNodes())
      ensures id == old(objects)
      ensures var created := CreateFile(old(View()), file);
              View() == created.(topics := created.topics + [Stored(name)])
    {
      ghost var before := files;
      if file in files {
        files := files - {file};
      }
      id := objects;
      files := files[file := id];
      assert files == before[file := id];
      subscribers, objects := subscribers[id := 0], objects + 1;
      topics[topicCount] := TopicInfo(Stored(name), true);
      topicCount := topicCount + 1;
      assert NamesIn(topics[..topicCount]) == NamesIn(old(topics[..topicCount])) + [Stored(name)];
    }

    /** The subscriber's destructor. */
    method Leave(id: nat)
      requires Valid()
      modifies this`subscribers
      ensures Valid() && View() == Unsubscribe(old(View()), id)
    {
      if id in subscribers && subscribers[id] > 0 {
        subscribers := subscribers[id := subscribers[id] - 1];
      }
    }

    /** Registers a node in the first free slot. Its id belongs to no other live node. */
    method RegisterNode(name: Name, pid: int) returns (id: int)
      requires Valid()
      modifies this`nodeCount, nodes
      ensures Valid() && View() == old(View())
      ensures id == -1 <==> forall i :: 0 <= i < MAX_NODES ==> i in old(LiveNodes())
      ensures id == -1 ==> LiveNodes() == old(LiveNodes()) && nodes[..] == old(nodes[..])
      ensures id != -1 ==>
                && 0 <= id < MAX_NODES && id !in old(LiveNodes())
                && (forall j :: 0 <= j < id ==> j in old(LiveNodes()))
                && LiveNodes() == old(LiveNodes()) + {id}
                && nodes[..] == old(nodes[..])[id := NodeInfo(Stored(name), pid, true)]
    {
      var i := 0;
      while i < MAX_NODES
        invariant i <= MAX_NODES && forall j :: 0 <= j < i ==> nodes[j].active
      {
        if !nodes[i].active {
          nodes[i] := NodeInfo(Stored(name), pid, true);
          nodeCount := nodeCount + 1;
          assert LiveNodes() == old(LiveNodes()) + {i};
          return i;
        }
        i := i + 1;
      }
      return -1;
    }

    /** Frees a slot; any number that is no live node's is ignored. */
    method UnregisterNode(id: int)
      requires Valid()
      modifies this`nodeCount, nodes
      ensures Valid() && View() == old(View())
      ensures LiveNodes() == old(LiveNodes()) - {id}
      ensures forall j :: 0 <= j < MAX_NODES ==>
                nodes[j] == if j == id then old(nodes[j]).(active := false) else old(nodes[j])
    {
      if id < 0 || id >= MAX_NODES {
        return;
      }
      if nodes[id].active {
        nodes[id] := nodes[id].(active := false);
        nodeCount := nodeCount - 1;
        assert LiveNodes() == old(LiveNodes()) - {id};
      }
    }

    /** The process of the first live node of that name. */
    method GetNodePid(name: Name) returns (pid: int)
      requires Valid()
      ensures (exists i: int :: i in LiveNodes() && nodes[i].name == name && nodes[i].pid == pid
                 && forall j: int :: j in LiveNodes() && j < i ==> nodes[j].name != name)
              || (pid == -1 && forall i: int :: i in LiveNodes() ==> nodes[i].name != name)
    {
      for i := 0 to MAX_NODES
        invariant forall j: int :: j in LiveNodes() && j < i ==> nodes[j].name != name
      {
        if nodes[i].active && nodes[i].name == name {
          assert i in LiveNodes();
          return nodes[i].pid;
        }
      }
      return -1;
    }
  }
}
