/** The trie as linked nodes, changed in place, proved against its value in TopicTree.

`nodes` names every node by its path, so the shape of the whole structure is one flat invariant.
*/
module TrieNodes {
  import opened Runs
  import opened KeySplit
  import opened TopicTree

  datatype TrieOp = Insertion | Deletion | Search

  // ---------------------------------------------------------------- links between named nodes

  /** The children of a node are the nodes one level below it, under their own last part. */
  ghost predicate Linked<N>(nodes: map<Path, N>, kids: map<Path, map<string, N>>) {
    && kids.Keys == nodes.Keys
    && (forall p, k :: p in kids ==> (k in kids[p] <==> p + [k] in nodes))
    && (forall p, k :: p in kids && k in kids[p] ==> p + [k] in nodes && kids[p][k] == nodes[p + [k]])
  }

  lemma AppendIsInjective(p: Path, k: string, q: Path, l: string)
    ensures p + [k] == q + [l] <==> p == q && k == l
    ensures Parent(p + [k]) == p
  {
    assert (p + [k])[..|p|] == p && (q + [l])[..|q|] == q;
    assert (p + [k])[|p|] == k && (q + [l])[|q|] == l;
  }

  /** Hanging a new leaf below `at` keeps the links. */
  lemma LinkedAfterAdding<N>(nodes: map<Path, N>, kids: map<Path, map<string, N>>, at: Path, part: string, child: N)
    requires Closed(nodes) && Linked(nodes, kids) && at in nodes && at + [part] !in nodes
    ensures var added := at + [part];
            && Closed(nodes[added := child])
            && Linked(nodes[added := child], kids[at := kids[at][part := child]][added := map[]])
  {
    var added := at + [part];
    var nodes', kids' := nodes[added := child], kids[at := kids[at][part := child]][added := map[]];
    AppendIsInjective(at, part, at, part);
    forall p, k | p in kids' ensures k in kids'[p] <==> p + [k] in nodes' {
      AppendIsInjective(p, k, at, part);
      assert Parent(p + [k]) == p;
    }
    forall p, k | p in kids' && k in kids'[p] ensures p + [k] in nodes' && kids'[p][k] == nodes'[p + [k]] {
      AppendIsInjective(p, k, at, part);
    }
  }

  lemma ExtendsByOne(target: Path, p: Path, k: string)
    requires target != []
    ensures target <= p + [k] <==> target <= p || (p == Parent(target) && k == target[|target| - 1])
  {
    assert Parent(target) + [target[|target| - 1]] == target;
    if target <= p + [k] && target != p + [k] {
      assert target == (p + [k])[..|target|] == p[..|target|];
    }
    AppendIsInjective(p, k, Parent(target), target[|target| - 1]);
  }

  /** Cutting the link to `target` leaves the links among the nodes that do not extend it. */
  lemma LinkedAfterCutting<N>(nodes: map<Path, N>, kids: map<Path, map<string, N>>, target: Path)
    requires Closed(nodes) && Linked(nodes, kids) && target != [] && target in nodes
    ensures var up, last := Parent(target), target[|target| - 1];
            Linked(Cut(nodes, target), Cut(kids[up := kids[up] - {last}], target))
  {
    var up, last := Parent(target), target[|target| - 1];
    var nodes', kids' := Cut(nodes, target), Cut(kids[up := kids[up] - {last}], target);
    forall p, k | p in kids' ensures k in kids'[p] <==> p + [k] in nodes' {
      ExtendsByOne(target, p, k);
    }
    forall p, k | p in kids' && k in kids'[p] ensures p + [k] in nodes' && kids'[p][k] == nodes'[p + [k]] {
      ExtendsByOne(target, p, k);
    }
  }

  // ---------------------------------------------------------------- the linked structure

  class Node<T> {
    const key: Option<string>
    var value: Option<T>
    var children: map<string, Node<T>>

    constructor (key: Option<string>)
      ensures this.key == key && value == None && children == map[]
    {
      this.key := key;
      value := None;
      children := map[];
    }
  }

  /** The nodes are named by closed paths, no object twice, each under its own key. */
  ghost predicate Named<T>(nodes: map<Path, Node<T>>) {
    && Closed(nodes)
    && (forall p, q :: p in nodes && q in nodes && p != q ==> nodes[p] != nodes[q])
    && (forall p :: p in nodes && p != [] ==> nodes[p].key == Some(p[|p| - 1]))
  }

  lemma NamedAfterAdding<T>(nodes: map<Path, Node<T>>, at: Path, part: string, child: Node<T>)
    requires Named(nodes) && at in nodes && at + [part] !in nodes && child.key == Some(part)
    requires forall p :: p in nodes ==> nodes[p] != child
    ensures Named(nodes[at + [part] := child])
  {
    AppendIsInjective(at, part, at, part);
  }

  lemma NamedAfterCutting<T>(nodes: map<Path, Node<T>>, target: Path)
    requires Named(nodes) && target != []
    ensures Named(Cut(nodes, target))
  {
    forall p | p in Cut(nodes, target) && p != [] ensures Parent(p) in Cut(nodes, target) {
      assert target <= Parent(p) ==> target <= p;
    }
  }

  class Trie<T> {
    const delimiter: string
    const root: Node<T>
    ghost var nodes: map<Path, Node<T>>

    /** Every object that has ever been a node here. */
    ghost var repr: set<Node<T>>

    ghost predicate Covered()
      reads this
    {
      forall p :: p in nodes ==> nodes[p] in repr
    }

    ghost function Kids(): map<Path, map<string, Node<T>>>
      requires Covered()
      reads this, repr
    {
      map p | p in nodes :: nodes[p].children
    }

    ghost predicate Valid()
      reads this, repr
    {
      Covered() && Named(nodes) && nodes[[]] == root && Linked(nodes, Kids())
    }

    ghost function Value(): Tree<T>
      requires Covered()
      reads this, repr
    {
      map p | p in nodes :: nodes[p].value
    }

    constructor (delimiter: string)
      ensures Valid() && Value() == Empty() && fresh(repr)
      ensures this.delimiter == delimiter
    {
      var top := new Node<T>(None);
      this.delimiter := delimiter;
      root := top;
      nodes := map[[] := top];
      repr := {top};
    }

    /** current.children.set(part, child). */
    method SetChild(current: Node<T>, part: string, child: Node<T>, ghost at: Path)
      requires Covered() && Named(nodes) && at in nodes && nodes[at] == current
      modifies current`children
      ensures Kids() == old(Kids())[at := old(Kids()[at])[part := child]]
      ensures Value() == old(Value())
    {
      current.children := current.children[part := child];
    }

    /** Gives a new leaf its name. */
    ghost method NameNode(child: Node<T>, p: Path)
      requires Covered() && p !in nodes && child.children == map[] && child.value == None
      modifies this`nodes, this`repr
      ensures Covered() && repr == old(repr) + {child}
      ensures nodes == old(nodes)[p := child]
      ensures Kids() == old(Kids())[p := map[]]
      ensures Value() == old(Value())[p := None]
    {
      nodes, repr := nodes[p := child], repr + {child};
    }

    /** current.children.set(part, child), for a child made for that part. */
    method AddChild(current: Node<T>, part: string, child: Node<T>, ghost at: Path)
      requires Valid() && at in nodes && nodes[at] == current && part !in current.children
      requires child !in repr && child.key == Some(part) && child.children == map[] && child.value == None
      modifies this`nodes, this`repr, current`children
      ensures Valid() && repr == old(repr) + {child}
      ensures nodes == old(nodes)[at + [part] := child]
      ensures Value() == old(Value())[at + [part] := None]
    {
      ghost var kids := Kids();
      assert part in kids[at] <==> at + [part] in nodes;
      NamedAfterAdding(nodes, at, part, child);
      LinkedAfterAdding(nodes, kids, at, part, child);
      SetChild(current, part, child, at);
      NameNode(child, at + [part]);
    }

    /** parent.children.delete(key). */
    method DeleteChild(parent: Node<T>, key: string, ghost up: Path)
      requires Covered() && Named(nodes) && up in nodes && nodes[up] == parent
      modifies parent`children
      ensures Kids() == old(Kids())[up := old(Kids()[up]) - {key}]
      ensures Value() == old(Value())
    {
      parent.children := parent.children - {key};
    }

    /** Forgets the names of nodes that can no longer be reached. */
    ghost method ForgetNodes(target: Path)
      requires Covered()
      modifies this`nodes
      ensures Covered() && nodes == Cut(old(nodes), target)
      ensures Kids() == Cut(old(Kids()), target)
      ensures Value() == Cut(old(Value()), target)
    {
      nodes := Cut(nodes, target);
    }

    /** parent.children.delete(current.key). */
    method RemoveChild(parent: Node<T>, current: Node<T>, ghost target: Path)
      requires Valid() && target != [] && target in nodes && nodes[target] == current
      requires nodes[Parent(target)] == parent
      modifies this`nodes, parent`children
      ensures Valid() && repr == old(repr)
      ensures nodes == Cut(old(nodes), target)
      ensures Value() == Cut(old(Value()), target)
    {
      NamedAfterCutting(nodes, target);
      LinkedAfterCutting(nodes, Kids(), target);
      DeleteChild(parent, current.key.value, Parent(target));
      ForgetNodes(target);
    }

    /** current.children.set(part, child = new Node(part)). */
    method MakeChild(current: Node<T>, part: string, ghost at: Path) returns (child: Node<T>)
      requires Valid() && at in nodes && nodes[at] == current && part !in current.children
      modifies this`nodes, this`repr, current`children
      ensures Valid() && fresh(child) && repr == old(repr) + {child}
      ensures nodes == old(nodes)[at + [part] := child]
      ensures Value() == old(Value())[at + [part] := None]
    {
      child := new Node(Some(part));
      assert Kids() == old(Kids()) && Value() == old(Value());
      AddChild(current, part, child, at);
    }

    /** The child for one part, created when `create` is set and it is missing. */
    method Child(current: Node<T>, part: string, create: bool, ghost at: Path) returns (child: Option<Node<T>>)
      requires Valid() && at in nodes && nodes[at] == current
      modifies this`nodes, this`repr, current`children
      ensures Valid() && repr >= old(repr) && (forall n :: n in repr && n !in old(repr) ==> fresh(n))
      ensures child.Some? <==> create || at + [part] in old(nodes)
      ensures child.Some? ==> at + [part] in nodes && nodes[at + [part]] == child.value
      ensures at in nodes && nodes[at] == current
      ensures at + [part] in old(nodes) || !create ==> nodes == old(nodes) && Value() == old(Value())
      ensures at + [part] !in old(nodes) && create ==>
                && nodes == old(nodes)[at + [part] := child.value]
                && Value() == old(Value())[at + [part] := None]
    {
      assert part in Kids()[at] <==> at + [part] in nodes;
      if part in current.children {
        return Some(current.children[part]);
      }
      if !create {
        return None;
      }
      assert |at + [part]| != |at|;
      var made := MakeChild(current, part, at);
      return Some(made);
    }

    /** A walk that began on the tree `start` has passed `i` parts and stands at `node` below `parent`. */
    ghost predicate Walked(start: Tree<T>, parts: Path, i: nat, node: Node<T>, parent: Node<T>, create: bool)
      reads this, repr
    {
      && Valid() && i <= |parts|
      && parts[..i] in nodes && nodes[parts[..i]] == node
      && (i > 0 ==> parts[..i - 1] in nodes && nodes[parts[..i - 1]] == parent)
      && Value() == if create then Grow(start, parts[..i]) else start
    }

    /** One iteration of the loop of Trie.find_node. */
    method Level(ghost start: Tree<T>, parts: Path, i: nat, node: Node<T>, ghost parent: Node<T>, create: bool)
      returns (child: Option<Node<T>>)
      requires Closed(start) && i < |parts| && Walked(start, parts, i, node, parent, create)
      modifies this`nodes, this`repr, node`children
      ensures child.Some? ==> Walked(start, parts, i + 1, child.value, node, create)
      ensures child.None? ==> !create && parts !in start && Valid() && Value() == start
      ensures !create ==> nodes == old(nodes)
      ensures repr >= old(repr) && (forall n :: n in repr && n !in old(repr) ==> fresh(n))
    {
      TakeOneMore(parts, i);
      GrowAlong(start, parts[..i], parts[i]);
      child := Child(node, parts[i], create, parts[..i]);
      if child.None? {
        AbsentPrefix(start, parts, i + 1);
      }
    }

    /** The loop of Trie.find_node: the node for `parts` and its parent, or None where a node is missing. */
    method Descend(parts: Path, create: bool) returns (current: Option<Node<T>>, parent: Node<T>)
      requires Valid()
      modifies this`nodes, this`repr, repr`children
      ensures Valid()
      ensures repr >= old(repr) && (forall n :: n in repr && n !in old(repr) ==> fresh(n))
      ensures current.Some? <==> create || parts in old(nodes)
      ensures current.Some? ==> parts in nodes && nodes[parts] == current.value
      ensures current.Some? && parts != [] ==> nodes[Parent(parts)] == parent
      ensures Value() == if create then Grow(old(Value()), parts) else old(Value())
      ensures !create ==> nodes == old(nodes)
    {
      ghost var start := Value();
      parent := root;
      var node := root;
      var i := 0;
      while i < |parts|
        invariant Walked(start, parts, i, node, parent, create)
        invariant repr >= old(repr) && (forall n :: n in repr && n !in old(repr) ==> fresh(n))
        invariant !create ==> nodes == old(nodes)
      {
        var child := Level(start, parts, i, node, parent, create);
        if child.None? {
          return None, parent;
        }
        parent, node, i := node, child.value, i + 1;
      }
      assert parts[..|parts|] == parts;
      return Some(node), parent;
    }

    /** Trie.find_node. */
    method FindNode(key: string, op: TrieOp) returns (found: Option<Node<T>>)
      requires Valid()
      modifies this`nodes, this`repr, repr`children
      ensures Valid()
      ensures repr >= old(repr) && (forall n :: n in repr && n !in old(repr) ==> fresh(n))
      ensures var parts := Split(key, delimiter);
              && Value() == (match op
                             case Insertion => Grow(old(Value()), parts)
                             case Deletion => TopicTree.Remove(old(Value()), parts)
                             case Search => old(Value()))
              && (found.Some? <==> op.Insertion? || parts in old(nodes))
              && (found.Some? && !op.Deletion? ==> parts in nodes && nodes[parts] == found.value)
    {
      var parts := Split(key, delimiter);
      var parent;
      found, parent := Descend(parts, op.Insertion?);
      if parts != [] && found.Some? && op.Deletion? {
        RemoveChild(parent, found.value, parts);
      }
    }

    /** Trie.insert. */
    method Insert(key: string, value: Option<T>)
      requires Valid()
      modifies this`nodes, this`repr, repr
      ensures Valid() && repr >= old(repr) && (forall n :: n in repr && n !in old(repr) ==> fresh(n))
      ensures Value() == TopicTree.Insert(old(Value()), Split(key, delimiter), value)
    {
      var node := FindNode(key, Insertion);
      SetValue(node.value, value, Split(key, delimiter));
    }

    method SetValue(node: Node<T>, value: Option<T>, ghost p: Path)
      requires Valid() && p in nodes && nodes[p] == node
      modifies node`value
      ensures Valid() && Value() == old(Value())[p := value]
    {
      node.value := value;
      assert Kids() == old(Kids());
    }

    /** Trie.remove. */
    method Remove(key: string)
      requires Valid()
      modifies this`nodes, this`repr, repr`children
      ensures Valid() && repr >= old(repr) && (forall n :: n in repr && n !in old(repr) ==> fresh(n))
      ensures Value() == TopicTree.Remove(old(Value()), Split(key, delimiter))
    {
      var _ := FindNode(key, Deletion);
    }

    /** Trie.find. */
    method Find(key: string) returns (value: Option<T>)
      requires Valid()
      modifies this`nodes, this`repr, repr`children
      ensures Valid() && repr >= old(repr) && (forall n :: n in repr && n !in old(repr) ==> fresh(n))
      ensures Value() == old(Value()) && value == At(Value(), Split(key, delimiter))
    {
      var node := FindNode(key, Search);
      return if node.Some? then node.value.value else None;
    }

    // -------------------------------------------------------------- TopicTrie overrides find_node

    /** The child a topic walk takes for one part: the part itself, else `#`, else `+`, else a new node. */
    method TopicChild(current: Node<T>, part: string, create: bool, ghost at: Path)
      returns (child: Option<Node<T>>, caught: bool, ghost level: string)
      requires Valid() && at in nodes && nodes[at] == current
      modifies this`nodes, this`repr, current`children
      ensures Valid() && repr >= old(repr) && (forall n :: n in repr && n !in old(repr) ==> fresh(n))
      ensures level == (if at + [part] in old(nodes) then part
                        else if at + [HASH] in old(nodes) then HASH
                        else if at + [PLUS] in old(nodes) then PLUS
                        else part)
      ensures caught <==> at + [part] !in old(nodes) && at + [HASH] in old(nodes)
      ensures child.Some? <==> create || at + [level] in old(nodes)
      ensures child.Some? ==> at + [level] in nodes && nodes[at + [level]] == child.value
      ensures child.Some? && at + [level] !in old(nodes) ==> Value() == old(Value())[at + [level] := None]
      ensures child.None? || at + [level] in old(nodes) ==> nodes == old(nodes) && Value() == old(Value())
      ensures at in nodes && nodes[at] == current
    {
      ghost var kids := Kids()[at];
      assert part in kids <==> at + [part] in nodes;
      assert HASH in kids <==> at + [HASH] in nodes;
      assert PLUS in kids <==> at + [PLUS] in nodes;
      if part !in current.children && HASH in current.children {
        return Some(current.children[HASH]), true, HASH;
      }
      if part !in current.children && PLUS in current.children {
        return Some(current.children[PLUS]), false, PLUS;
      }
      child := Child(current, part, create, at);
      return child, false, part;
    }

    /** What an insert's walk leaves behind, and how any other walk ends. */
    ghost predicate Destined(grown: (Tree<T>, Path), answer: Answer, create: bool, at: Path, rest: Path)
      requires Covered()
      reads this, repr
    {
      if create then grown == GrowTopic(Value(), at, rest) else grown.0 == Value() && answer == Walk(Value(), at, rest)
    }

    /** A topic walk stands at `node`, whose path is `at`, with `rest` still to go. */
    ghost predicate TopicWalked(grown: (Tree<T>, Path), answer: Answer, at: Path, rest: Path, node: Node<T>, parent: Node<T>, create: bool)
      reads this, repr
    {
      && Valid()
      && at in nodes && nodes[at] == node
      && (at != [] ==> nodes[Parent(at)] == parent)
      && Destined(grown, answer, create, at, rest)
    }

    /** A topic walk has ended at `at`, early or not. */
    ghost predicate TopicEnded(grown: (Tree<T>, Path), answer: Answer, at: Path, found: Option<Node<T>>, caught: bool, create: bool)
      requires Covered()
      reads this, repr
    {
      match found
      case None => !create && grown.0 == Value() && answer == Nowhere
      case Some(node) =>
        && at in nodes && nodes[at] == node
        && grown.0 == Value()
        && if create then grown.1 == at else answer == if caught then Caught(at) else Reached(at)
    }

    /** One iteration of the loop of TopicTrie.find_node. */
    method TopicLevel(ghost grown: (Tree<T>, Path), ghost answer: Answer, rest: Path, ghost at: Path,
                      node: Node<T>, ghost parent: Node<T>, create: bool)
      returns (child: Option<Node<T>>, caught: bool, ghost to: Path)
      requires rest != [] && TopicWalked(grown, answer, at, rest, node, parent, create)
      modifies this`nodes, this`repr, node`children
      ensures Valid() && repr >= old(repr) && (forall n :: n in repr && n !in old(repr) ==> fresh(n))
      ensures child.Some? && !caught ==> TopicWalked(grown, answer, to, rest[1..], child.value, node, create)
      ensures child.None? || caught ==> TopicEnded(grown, answer, to, child, caught, create)
      ensures |to| == |at| + 1
      ensures !create ==> nodes == old(nodes)
    {
      ghost var level;
      child, caught, level := TopicChild(node, rest[0], create, at);
      to := at + [level];
      AppendIsInjective(at, level, at, level);
    }

    /** The loop of TopicTrie.find_node. */
    method TopicLoop(ghost grown: (Tree<T>, Path), ghost answer: Answer, parts: Path, create: bool)
      returns (current: Option<Node<T>>, parent: Node<T>, caught: bool, ghost at: Path)
      requires Valid() && Destined(grown, answer, create, [], parts)
      modifies this`nodes, this`repr, repr`children
      ensures Valid() && repr >= old(repr) && (forall n :: n in repr && n !in old(repr) ==> fresh(n))
      ensures current.None? || caught ==> TopicEnded(grown, answer, at, current, caught, create)
      ensures current.Some? && !caught ==> TopicWalked(grown, answer, at, [], current.value, parent, create)
      ensures current.Some? && !caught ==> |at| == |parts|
      ensures !create ==> nodes == old(nodes)
    {
      parent, at := root, [];
      current, caught := Some(root), false;
      var rest := parts;
      while rest != []
        invariant current.Some? && !caught && |at| + |rest| == |parts|
        invariant TopicWalked(grown, answer, at, rest, current.value, parent, create)
        invariant repr >= old(repr) && (forall n :: n in repr && n !in old(repr) ==> fresh(n))
        invariant !create ==> nodes == old(nodes)
        decreases |rest|
      {
        var node := current.value;
        current, caught, at := TopicLevel(grown, answer, rest, at, node, parent, create);
        if current.None? || caught {
          break;
        }
        parent, rest := node, rest[1..];
      }
    }

    /** Where the loop of TopicTrie.find_node ends, told by the tree it began on. */
    method TopicDescend(parts: Path, create: bool)
      returns (current: Option<Node<T>>, parent: Node<T>, caught: bool, ghost at: Path)
      requires Valid()
      modifies this`nodes, this`repr, repr`children
      ensures Valid() && repr >= old(repr) && (forall n :: n in repr && n !in old(repr) ==> fresh(n))
      ensures current.Some? ==> at in nodes && nodes[at] == current.value
      ensures current.Some? && !caught && parts != [] ==> at != [] && nodes[Parent(at)] == parent
      ensures create ==> current.Some? && GrowTopic(old(Value()), [], parts) == (Value(), at)
      ensures !create ==>
                && nodes == old(nodes) && Value() == old(Value())
                && Walk(Value(), [], parts) == if current.None? then Nowhere else if caught then Caught(at) else Reached(at)
    {
      ghost var grown := if create then GrowTopic(Value(), [], parts) else (Value(), []);
      ghost var answer := Walk(Value(), [], parts);
      current, parent, caught, at := TopicLoop(grown, answer, parts, create);
    }

    /** The end of TopicTrie.find_node for a deletion: a node met through `#` stays. */
    method DeleteFound(found: Option<Node<T>>, parent: Node<T>, caught: bool, ghost at: Path, ghost parts: Path)
      requires Valid() && parts != []
      requires found.Some? ==> at in nodes && nodes[at] == found.value
      requires found.Some? && !caught ==> at != [] && nodes[Parent(at)] == parent && parent in repr
      requires Walk(Value(), [], parts) == if found.None? then Nowhere else if caught then Caught(at) else Reached(at)
      modifies this`nodes, repr`children
      ensures Valid() && repr == old(repr)
      ensures Value() == TopicTree.Unsubscribe(old(Value()), parts)
    {
      if found.Some? && !caught {
        RemoveChild(parent, found.value, at);
      }
    }

    /** TopicTrie.find_node. */
    method FindTopicNode(key: string, op: TrieOp) returns (found: Option<Node<T>>, ghost at: Path)
      requires Valid()
      modifies this`nodes, this`repr, repr`children
      ensures Valid() && repr >= old(repr) && (forall n :: n in repr && n !in old(repr) ==> fresh(n))
      ensures found.Some? && !op.Deletion? ==> at in nodes && nodes[at] == found.value
      ensures op.Insertion? ==> found.Some? && GrowTopic(old(Value()), [], Split(key, delimiter)) == (Value(), at)
      ensures op.Deletion? ==> Value() == TopicTree.Unsubscribe(old(Value()), Split(key, delimiter))
      ensures op.Search? ==>
                && Value() == old(Value())
                && (found.None? <==> Walk(Value(), [], Split(key, delimiter)).Nowhere?)
                && (found.Some? ==> EndsAt(Walk(Value(), [], Split(key, delimiter)), at))
    {
      var parts := Split(key, delimiter);
      var parent, caught;
      found, parent, caught, at := TopicDescend(parts, op.Insertion?);
      if parts != [] && op.Deletion? {
        DeleteFound(found, parent, caught, at, parts);
      }
    }

    /** this.subscriptions.insert(topic, on_message). */
    method Subscribe(filter: string, callback: Option<T>)
      requires Valid()
      modifies this`nodes, this`repr, repr
      ensures Valid() && repr >= old(repr) && (forall n :: n in repr && n !in old(repr) ==> fresh(n))
      ensures Value() == TopicTree.Subscribe(old(Value()), Split(filter, delimiter), callback)
    {
      ghost var at;
      var node;
      node, at := FindTopicNode(filter, Insertion);
      SetValue(node.value, callback, at);
    }

    /** this.subscriptions.remove(topic). */
    method Unsubscribe(filter: string)
      requires Valid()
      modifies this`nodes, this`repr, repr`children
      ensures Valid() && repr >= old(repr) && (forall n :: n in repr && n !in old(repr) ==> fresh(n))
      ensures Value() == TopicTree.Unsubscribe(old(Value()), Split(filter, delimiter))
    {
      var node;
      ghost var at;
      node, at := FindTopicNode(filter, Deletion);
    }

    /** this.subscriptions.find(topic): the callback that on_message invokes. */
    method OnMessage(topic: string) returns (callback: Option<T>)
      requires Valid()
      modifies this`nodes, this`repr, repr`children
      ensures Valid() && repr >= old(repr) && (forall n :: n in repr && n !in old(repr) ==> fresh(n))
      ensures Value() == old(Value()) && callback == Lookup(Value(), Split(topic, delimiter))
    {
      ghost var at;
      var node;
      node, at := FindTopicNode(topic, Search);
      return if node.Some? then node.value.value else None;
    }
  }

  lemma TakeOneMore(parts: Path, i: nat)
    requires i < |parts|
    ensures parts[..i + 1] == parts[..i] + [parts[i]]
  {
  }

  /** One more level of an insert walk. */
  lemma GrowAlong<T>(t: Tree<T>, at: Path, part: string)
    requires Closed(t)
    ensures var g := Grow(t, at);
            Grow(t, at + [part]) == if at + [part] in g then g else g[at + [part] := None]
  {
    AppendIsInjective(at, part, at, part);
    GrowMeaning(t, at, at + [part]);
    if at + [part] in t {
      PrefixesArePresent(t, at + [part], at);
    }
  }

  lemma AbsentPrefix<T>(t: Tree<T>, parts: Path, i: nat)
    requires Closed(t) && i <= |parts| && parts[..i] !in t
    ensures parts !in t
  {
    if parts in t {
      PrefixesArePresent(t, parts, parts[..i]);
      assert false;
    }
  }
}
