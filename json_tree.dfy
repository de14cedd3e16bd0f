/**
 * Positions inside a JSON node. The builders of both revisions keep a stack
 * of Node* pointing into the node under construction; such a pointer is
 * modelled as the path from the root to the node it points at: the element
 * index at each array and the key at each dictionary on the way down.
 */
module JsonTree {
  import opened Wrappers
  import opened Json

  datatype PathStep = Index(i: nat) | Member(key: string)

  type Path = seq<PathStep>

  /** The node a path leads to, if every step exists. */
  function NodeAt(n: Node, path: Path): Option<Node>
    decreases |path|
  {
    if path == [] then Some(n)
    else match path[0]
      case Index(i) =>
        if n.Array? && i < |n.items| then NodeAt(n.items[i], path[1..]) else None
      case Member(k) =>
        if n.Dict? && k in n.entries then NodeAt(n.entries[k], path[1..]) else None
  }

  /** The node with the node at `path` overwritten by v (assignment through the pointer). */
  function Replace(n: Node, path: Path, v: Node): Node
    requires NodeAt(n, path).Some?
    decreases |path|
  {
    if path == [] then v
    else match path[0]
      case Index(i) => Array(n.items[i := Replace(n.items[i], path[1..], v)])
      case Member(k) => Dict(n.entries[k := Replace(n.entries[k], path[1..], v)])
  }

  /** After the assignment the path leads to the new value. */
  lemma {:induction false} ReplaceAt(n: Node, path: Path, v: Node)
    requires NodeAt(n, path).Some?
    ensures NodeAt(Replace(n, path, v), path) == Some(v)
    decreases |path|
  {
    if path != [] {
      match path[0]
      case Index(i) => ReplaceAt(n.items[i], path[1..], v);
      case Member(k) => ReplaceAt(n.entries[k], path[1..], v);
    }
  }

  /** One step down: the element or the member, if there is one. */
  lemma ChildAt(n: Node, step: PathStep)
    ensures NodeAt(n, [step]) == match step
      case Index(i) => if n.Array? && i < |n.items| then Some(n.items[i]) else None
      case Member(k) => if n.Dict? && k in n.entries then Some(n.entries[k]) else None
  {
    assert [step][1..] == [];
  }

  /** One step down, assignment replaces that element or member. */
  lemma ReplaceChild(n: Node, step: PathStep, v: Node)
    requires NodeAt(n, [step]).Some?
    ensures Replace(n, [step], v) == match step
      case Index(i) => Array(n.items[i := v])
      case Member(k) => Dict(n.entries[k := v])
  {
    assert [step][1..] == [];
  }

  /** Following p and then q is following p + q. */
  lemma {:induction false} NodeAtAppend(n: Node, p: Path, q: Path)
    ensures NodeAt(n, p + q) == if NodeAt(n, p).Some? then NodeAt(NodeAt(n, p).value, q) else None
    decreases |p|
  {
    if p == [] {
      assert p + q == q;
    } else {
      assert (p + q)[0] == p[0] && (p + q)[1..] == p[1..] + q;
      match p[0]
      case Index(i) =>
        if n.Array? && i < |n.items| {
          NodeAtAppend(n.items[i], p[1..], q);
        }
      case Member(k) =>
        if n.Dict? && k in n.entries {
          NodeAtAppend(n.entries[k], p[1..], q);
        }
    }
  }

  /** Every prefix of a path that leads somewhere leads somewhere too. */
  lemma NodeAtPrefix(n: Node, p: Path, i: nat)
    requires NodeAt(n, p).Some? && i <= |p|
    ensures NodeAt(n, p[..i]).Some?
  {
    assert p == p[..i] + p[i..];
    NodeAtAppend(n, p[..i], p[i..]);
  }

  /** Assigning at p + q is assigning, at p, the node at p with q assigned. */
  lemma {:induction false} ReplaceAppend(n: Node, p: Path, q: Path, v: Node)
    requires NodeAt(n, p + q).Some?
    ensures NodeAt(n, p).Some? && NodeAt(NodeAt(n, p).value, q).Some?
    ensures Replace(n, p + q, v) == Replace(n, p, Replace(NodeAt(n, p).value, q, v))
    decreases |p|
  {
    NodeAtAppend(n, p, q);
    if p == [] {
      assert p + q == q;
    } else {
      assert (p + q)[0] == p[0] && (p + q)[1..] == p[1..] + q;
      match p[0]
      case Index(i) => ReplaceAppend(n.items[i], p[1..], q, v);
      case Member(k) => ReplaceAppend(n.entries[k], p[1..], q, v);
    }
  }

  /** A second assignment through the same pointer overwrites the first. */
  lemma {:induction false} ReplaceTwice(n: Node, path: Path, a: Node, b: Node)
    requires NodeAt(n, path).Some?
    ensures NodeAt(Replace(n, path, a), path).Some?
    ensures Replace(Replace(n, path, a), path, b) == Replace(n, path, b)
    decreases |path|
  {
    ReplaceAt(n, path, a);
    if path != [] {
      var n1 := Replace(n, path, a);
      match path[0]
      case Index(i) =>
        var c := n.items[i];
        ReplaceTwice(c, path[1..], a, b);
        assert n1.items[i] == Replace(c, path[1..], a);
        assert n1.items[i := Replace(n1.items[i], path[1..], b)] == n.items[i := Replace(c, path[1..], b)];
      case Member(k) =>
        var c := n.entries[k];
        ReplaceTwice(c, path[1..], a, b);
        assert n1.entries[k] == Replace(c, path[1..], a);
        assert n1.entries[k := Replace(n1.entries[k], path[1..], b)] == n.entries[k := Replace(c, path[1..], b)];
    }
  }

  /** Assigning a node its own value changes nothing. */
  lemma {:induction false} ReplaceSame(n: Node, path: Path)
    requires NodeAt(n, path).Some?
    ensures Replace(n, path, NodeAt(n, path).value) == n
    decreases |path|
  {
    if path != [] {
      match path[0]
      case Index(i) =>
        ReplaceSame(n.items[i], path[1..]);
        assert n.items[i := n.items[i]] == n.items;
      case Member(k) =>
        ReplaceSame(n.entries[k], path[1..]);
        assert n.entries[k := n.entries[k]] == n.entries;
    }
  }

  /** Assignment keeps every node on the way down: each proper prefix still leads to a node of the same kind. */
  lemma {:induction false} ReplaceKeepsAncestors(n: Node, path: Path, v: Node, i: nat)
    requires NodeAt(n, path).Some? && i < |path|
    ensures NodeAt(Replace(n, path, v), path[..i]).Some?
    ensures NodeAt(n, path[..i]).Some?
    ensures NodeAt(Replace(n, path, v), path[..i]).value.Array? == NodeAt(n, path[..i]).value.Array?
    ensures NodeAt(Replace(n, path, v), path[..i]).value.Dict? == NodeAt(n, path[..i]).value.Dict?
    decreases |path|
  {
    NodeAtPrefix(n, path, i);
    if i > 0 {
      assert path[..i][0] == path[0] && path[..i][1..] == path[1..][..i - 1];
      match path[0]
      case Index(j) => ReplaceKeepsAncestors(n.items[j], path[1..], v, i - 1);
      case Member(k) => ReplaceKeepsAncestors(n.entries[k], path[1..], v, i - 1);
    }
  }
}
