/**
 The two walks of crypter/yaml/yaml.go as the code has them: methods that overwrite the scalars of a node
 tree in place, each proved against the meaning that YamlTree gives it.
 */
module YamlWalk {
  import opened Wrappers
  import T = YamlTree

  /** A yaml.v3 node.  The walks replace no child, so the shape of the tree is constant. */
  class Node {
    const kind: T.Kind
    const content: seq<Node>
    ghost const footprint: set<Node>
    var tag: string
    var value: T.Text
    var style: int

    constructor (kind: T.Kind, tag: string, value: T.Text, style: int, content: seq<Node>)
      requires forall i :: 0 <= i < |content| ==> content[i].Valid()
      requires forall i, j :: 0 <= i < j < |content| ==> content[i].footprint !! content[j].footprint
      ensures Valid()
      ensures AsTree() == T.Tree(kind, tag, value, style, AsTrees(content))
    {
      this.kind, this.tag, this.value, this.style, this.content := kind, tag, value, style, content;
      footprint := {this} + set i, n | 0 <= i < |content| && n in content[i].footprint :: n;
      new;
      assert forall i :: 0 <= i < |content| ==> content[i].footprint <= footprint;
    }

    /** A tree: no node is shared and none is below itself. */
    ghost predicate Valid()
      decreases footprint
    {
      && this in footprint
      && (forall i :: 0 <= i < |content| ==> this !in content[i].footprint && content[i].footprint <= footprint)
      && (forall i :: 0 <= i < |content| ==> content[i].footprint < footprint && content[i].Valid())
      && (forall i, j :: 0 <= i < j < |content| ==> content[i].footprint !! content[j].footprint)
    }

    /** The value of the tree below this node. */
    ghost function AsTree(): T.Tree
      requires Valid()
      reads footprint
      decreases footprint, 0
    {
      T.Tree(kind, tag, value, style,
             seq(|content|, i requires 0 <= i < |content| reads footprint => content[i].AsTree()))
    }
  }

  ghost function AsTrees(nodes: seq<Node>): seq<T.Tree>
    requires forall i :: 0 <= i < |nodes| ==> nodes[i].Valid()
    reads set i, n | 0 <= i < |nodes| && n in nodes[i].footprint :: n
  {
    seq(|nodes|, i requires 0 <= i < |nodes|
                   reads set j, n | 0 <= j < |nodes| && n in nodes[j].footprint :: n
                 => nodes[i].AsTree())
  }

  /** When the other children are as in `was`, only the tree below child `i` differs. */
  lemma OneChild(n: Node, i: nat, was: T.Tree)
    requires n.Valid() && i < |n.content| == |was.content|
    requires was.kind == n.kind && was.tag == n.tag && was.value == n.value && was.style == n.style
    requires forall j :: 0 <= j < |n.content| && j != i ==> n.content[j].AsTree() == was.content[j]
    ensures n.AsTree() == was.(content := was.content[i := n.content[i].AsTree()])
  {
  }

  /** A loop over the children of `t` that is to end with `whole` has `items` and `n` before child `i`: those
      before `i` are done, those from `i` on untouched. */
  ghost predicate Ongoing(
    c: T.Cipher, isSecret: T.Text -> bool, t: T.Tree, role: T.Role, whole: T.Outcomes,
    items: seq<T.Tree>, n: T.Counts, i: nat)
  {
    && i <= |t.content| == |items|
    && items[i..] == t.content[i..]
    && var rest := T.EncryptFrom(c, isSecret, t, role, i, n);
       whole == T.Outcomes(items[..i] + rest.items, rest.counts, rest.ok)
  }

  lemma Advance(
    c: T.Cipher, isSecret: T.Text -> bool, t: T.Tree, role: T.Role, whole: T.Outcomes,
    items: seq<T.Tree>, n: T.Counts, i: nat, child: T.Outcome)
    requires Ongoing(c, isSecret, t, role, whole, items, n, i) && i < |items|
    requires child == T.EncryptWalk(c, isSecret, t.content[i], T.ChildRole(isSecret, t, role, i), n)
    ensures child.ok ==> Ongoing(c, isSecret, t, role, whole, items[i := child.tree], child.counts, i + 1)
    ensures !child.ok ==> whole == T.Outcomes(items[i := child.tree], child.counts, false)
  {
    var after := items[i := child.tree];
    assert after[..i] == items[..i] && after[i + 1..] == items[i..][1..] == t.content[i..][1..] == t.content[i + 1..];
    assert after[..i + 1] == items[..i] + [child.tree];
    if child.ok {
      var rest := T.EncryptFrom(c, isSecret, t, role, i + 1, child.counts);
      assert items[..i] + ([child.tree] + rest.items) == after[..i + 1] + rest.items;
    } else {
      assert items[..i] + ([child.tree] + t.content[i + 1..]) == after;
    }
  }

  /** A child that is not reached is passed over. */
  lemma Skip(
    c: T.Cipher, isSecret: T.Text -> bool, t: T.Tree, role: T.Role, whole: T.Outcomes,
    items: seq<T.Tree>, n: T.Counts, i: nat)
    requires Ongoing(c, isSecret, t, role, whole, items, n, i) && i < |items|
    requires T.ChildRole(isSecret, t, role, i).Unreached?
    ensures Ongoing(c, isSecret, t, role, whole, items, n, i + 1) && items[i] == t.content[i]
  {
    assert items[i] == items[i..][0] == t.content[i..][0] == t.content[i];
    Advance(c, isSecret, t, role, whole, items, n, i, T.Outcome(items[i], n, true));
    assert items[i := items[i]] == items;
  }

  lemma Ends(
    c: T.Cipher, isSecret: T.Text -> bool, t: T.Tree, role: T.Role, whole: T.Outcomes,
    items: seq<T.Tree>, n: T.Counts)
    requires Ongoing(c, isSecret, t, role, whole, items, n, |items|)
    ensures whole == T.Outcomes(items, n, true)
  {
    assert items[..|items|] == items;
  }

  /** The walk of `EncryptBytes`; `calls` numbers the calls to the crypter. */
  class EncryptWalk {
    const c: T.Cipher
    const isSecret: T.Text -> bool
    var calls: nat
    var encrypted: nat
    var skipped: nat

    constructor (c: T.Cipher, isSecret: T.Text -> bool)
      ensures this.c == c && this.isSecret == isSecret && Counts() == T.ZERO
    {
      this.c, this.isSecret, calls, encrypted, skipped := c, isSecret, 0, 0, 0;
    }

    function Counts(): T.Counts
      reads this
    {
      T.Counts(calls, encrypted, skipped)
    }

    /** The loop over the children of `n`, once `t`, has come to child `i`. */
    ghost predicate Underway(n: Node, t: T.Tree, role: T.Role, whole: T.Outcomes, i: nat)
      requires n.Valid()
      reads this, n.footprint
    {
      && n.AsTree() == t.(content := n.AsTree().content)
      && Ongoing(c, isSecret, t, role, whole, n.AsTree().content, Counts(), i)
    }

    /** The body of every loop below: child `i` goes to `encryptSecret` or to `walk`. */
    method Child(n: Node, i: nat, secret: bool, ghost t: T.Tree, ghost role: T.Role, ghost whole: T.Outcomes)
      returns (ok: bool)
      requires n.Valid() && i < |n.content| && Underway(n, t, role, whole, i)
      requires T.ChildRole(isSecret, t, role, i) == if secret then T.Secret else T.Plain
      modifies this, n.content[i].footprint
      ensures ok ==> Underway(n, t, role, whole, i + 1)
      ensures !ok ==> n.AsTree() == t.(content := whole.items) && Counts() == whole.counts && !whole.ok
      decreases n.footprint, 0
    {
      ghost var was, counts := n.AsTree(), Counts();
      assert was.content[i] == was.content[i..][0] == t.content[i..][0] == t.content[i];
      if secret {
        ok := EncryptSecret(n.content[i]);
      } else {
        ok := Walk(n.content[i]);
      }
      forall j | 0 <= j < |n.content| && j != i ensures n.content[j].AsTree() == old(n.content[j].AsTree()) {
        assert n.content[j].footprint !! n.content[i].footprint;
      }
      OneChild(n, i, was);
      Advance(c, isSecret, t, role, whole, was.content, counts, i, T.Outcome(n.content[i].AsTree(), Counts(), ok));
    }

    /** Lines 155-173. */
    method Walk(n: Node) returns (ok: bool)
      requires n.Valid()
      modifies this, n.footprint
      ensures T.Outcome(n.AsTree(), Counts(), ok) ==
        T.EncryptWalk(c, isSecret, old(n.AsTree()), T.Plain, old(Counts()))
      decreases n.footprint, 3
    {
      if n.kind.Mapping? {
        ok := MappingValues(n);
      } else if n.kind.Document? || n.kind.Sequence? {
        ghost var t := n.AsTree();
        ghost var whole := T.EncryptFrom(c, isSecret, t, T.Plain, 0, Counts());
        for i := 0 to |n.content|
          invariant Underway(n, t, T.Plain, whole, i)
        {
          ok := Child(n, i, false, t, T.Plain, whole);
          if !ok { return; }
        }
        ok := true;
        Ends(c, isSecret, t, T.Plain, whole, n.AsTree().content, Counts());
      } else {
        NoneReached(c, isSecret, n.AsTree(), T.Plain, 0, Counts());
        ok := true;
      }
    }

    /** Lines 180-190: the value of one pair, by its key. */
    method Pair(n: Node, i: nat, ghost t: T.Tree, ghost whole: T.Outcomes) returns (ok: bool)
      requires n.Valid() && n.kind.Mapping? && i % 2 == 0 && i + 1 < |n.content| && Underway(n, t, T.Plain, whole, i)
      modifies this, n.footprint
      ensures ok ==> Underway(n, t, T.Plain, whole, i + 2)
      ensures !ok ==> n.AsTree() == t.(content := whole.items) && Counts() == whole.counts && !whole.ok
      decreases n.footprint, 1
    {
      assert T.ChildRole(isSecret, t, T.Plain, i).Unreached?;
      Skip(c, isSecret, t, T.Plain, whole, n.AsTree().content, Counts(), i);
      var key := n.content[i];
      assert key.value == n.content[i].AsTree().value == n.AsTree().content[i].value == t.content[i].value;
      assert T.ChildRole(isSecret, t, T.Plain, i + 1) == if isSecret(key.value) then T.Secret else T.Plain;
      ok := Child(n, i + 1, isSecret(key.value), t, T.Plain, whole);
    }

    /** Lines 178-192: the values at odd places, by their keys. */
    method MappingValues(n: Node) returns (ok: bool)
      requires n.Valid() && n.kind.Mapping?
      modifies this, n.footprint
      ensures T.Outcome(n.AsTree(), Counts(), ok) ==
        T.EncryptWalk(c, isSecret, old(n.AsTree()), T.Plain, old(Counts()))
      decreases n.footprint, 2
    {
      ghost var t := n.AsTree();
      ghost var whole := T.EncryptFrom(c, isSecret, t, T.Plain, 0, Counts());
      var i := 0;
      while i + 1 < |n.content|
        invariant 0 <= i <= |n.content| && i % 2 == 0 && Underway(n, t, T.Plain, whole, i)
        decreases |n.content| - i
      {
        ok := Pair(n, i, t, whole);
        if !ok { return; }
        i := i + 2;
      }
      if i < |n.content| { Skip(c, isSecret, t, T.Plain, whole, n.AsTree().content, Counts(), i); }
      ok := true;
      Ends(c, isSecret, t, T.Plain, whole, n.AsTree().content, Counts());
    }

    /** Lines 200-217. */
    method EncryptSecret(n: Node) returns (ok: bool)
      requires n.Valid()
      modifies this, n.footprint
      ensures T.Outcome(n.AsTree(), Counts(), ok) ==
        T.EncryptWalk(c, isSecret, old(n.AsTree()), T.Secret, old(Counts()))
      decreases n.footprint, 4
    {
      if n.kind.Scalar? {
        ok := Scalar(n);
      } else if n.kind.Sequence? {
        ghost var t := n.AsTree();
        ghost var whole := T.EncryptFrom(c, isSecret, t, T.Secret, 0, Counts());
        for i := 0 to |n.content|
          invariant Underway(n, t, T.Secret, whole, i)
        {
          ok := Child(n, i, true, t, T.Secret, whole);
          if !ok { return; }
        }
        ok := true;
        Ends(c, isSecret, t, T.Secret, whole, n.AsTree().content, Counts());
      } else {
        SecretIsPlain(c, isSecret, n.AsTree(), 0, Counts());
        ok := Walk(n);
      }
    }

    /** Lines 222-249. */
    method Scalar(n: Node) returns (ok: bool)
      requires n.Valid()
      modifies this, n
      ensures T.Outcome(n.AsTree(), Counts(), ok) == T.EncryptScalar(c, old(n.AsTree()), old(Counts()))
    {
      if n.tag != "!!str" { return true; }
      if T.IsBoolLiteral(n.value) { return true; }
      if T.HasTemplate(n.value) { return true; }
      if c.isEncrypted(n.value) {
        skipped := skipped + 1;
        return true;
      }
      var enc := c.encrypt(calls, n.value);
      calls := calls + 1;
      if enc.None? { return false; }
      n.value := enc.value;
      n.tag := "!!str";
      n.style := T.DOUBLE_QUOTED;
      encrypted := encrypted + 1;
      return true;
    }
  }

  /** The walk passes over the children of a node that is neither document, sequence nor mapping. */
  lemma {:induction false} NoneReached(
    c: T.Cipher, isSecret: T.Text -> bool, t: T.Tree, role: T.Role, i: nat, n: T.Counts)
    requires i <= |t.content| && !t.kind.Document? && !t.kind.Sequence? && !t.kind.Mapping?
    ensures T.EncryptFrom(c, isSecret, t, role, i, n) == T.Outcomes(t.content[i..], n, true)
    decreases |t.content| - i
  {
    if i < |t.content| {
      NoneReached(c, isSecret, t, role, i + 1, n);
      assert t.content[i..] == [t.content[i]] + t.content[i + 1..];
    }
  }

  /** Only for scalars and sequences does it matter that the key is secret. */
  lemma {:induction false} SecretIsPlain(
    c: T.Cipher, isSecret: T.Text -> bool, t: T.Tree, i: nat, n: T.Counts)
    requires i <= |t.content| && !t.kind.Scalar? && !t.kind.Sequence?
    ensures T.EncryptFrom(c, isSecret, t, T.Secret, i, n) == T.EncryptFrom(c, isSecret, t, T.Plain, i, n)
    decreases |t.content| - i
  {
    if i < |t.content| {
      SecretIsPlain(c, isSecret, t, i + 1,
        T.EncryptWalk(c, isSecret, t.content[i], T.ChildRole(isSecret, t, T.Plain, i), n).counts);
    }
  }

  /** `EncryptBytes` from lines 129 to 135: the walk over the decoded document, with fresh counters. */
  method EncryptDocument(c: T.Cipher, isSecret: T.Text -> bool, n: Node) returns (counts: T.Counts, ok: bool)
    requires n.Valid()
    modifies n.footprint
    ensures T.Outcome(n.AsTree(), counts, ok) == T.EncryptDocument(c, isSecret, old(n.AsTree()))
  {
    var w := new EncryptWalk(c, isSecret);
    ok := w.Walk(n);
    counts := w.Counts();
  }

  // ----- decrypting

  /** As `Ongoing`, for the decrypt walk. */
  ghost predicate Decoding(c: T.Cipher, t: T.Tree, whole: T.Decodeds, items: seq<T.Tree>, i: nat) {
    && i <= |t.content| == |items|
    && items[i..] == t.content[i..]
    && var rest := T.DecryptFrom(c, t, true, i);
       whole == T.Decodeds(items[..i] + rest.items, rest.ok)
  }

  lemma DecodingAdvance(
    c: T.Cipher, t: T.Tree, whole: T.Decodeds, items: seq<T.Tree>, i: nat, child: T.Decoded)
    requires Decoding(c, t, whole, items, i) && i < |items|
    requires child == T.DecryptWalk(c, t.content[i], T.ChildVisited(t, true, i))
    ensures child.ok ==> Decoding(c, t, whole, items[i := child.tree], i + 1)
    ensures !child.ok ==> whole == T.Decodeds(items[i := child.tree], false)
  {
    var after := items[i := child.tree];
    assert after[..i] == items[..i] && after[i + 1..] == items[i..][1..] == t.content[i..][1..] == t.content[i + 1..];
    assert after[..i + 1] == items[..i] + [child.tree];
    if child.ok {
      var rest := T.DecryptFrom(c, t, true, i + 1);
      assert items[..i] + ([child.tree] + rest.items) == after[..i + 1] + rest.items;
    } else {
      assert items[..i] + ([child.tree] + t.content[i + 1..]) == after;
    }
  }

  lemma DecodingSkip(c: T.Cipher, t: T.Tree, whole: T.Decodeds, items: seq<T.Tree>, i: nat)
    requires Decoding(c, t, whole, items, i) && i < |items| && !T.ChildVisited(t, true, i)
    ensures Decoding(c, t, whole, items, i + 1)
  {
    assert items[i] == items[i..][0] == t.content[i..][0] == t.content[i];
    DecodingAdvance(c, t, whole, items, i, T.Decoded(items[i], true));
    assert items[i := items[i]] == items;
  }

  class DecryptWalk {
    const c: T.Cipher

    constructor (c: T.Cipher)
      ensures this.c == c
    {
      this.c := c;
    }

    ghost predicate Underway(n: Node, t: T.Tree, whole: T.Decodeds, i: nat)
      requires n.Valid()
      reads n.footprint
    {
      && n.AsTree() == t.(content := n.AsTree().content)
      && Decoding(c, t, whole, n.AsTree().content, i)
    }

    /** The body of both loops below. */
    method Child(n: Node, i: nat, ghost t: T.Tree, ghost whole: T.Decodeds) returns (ok: bool)
      requires n.Valid() && i < |n.content| && Underway(n, t, whole, i) && T.ChildVisited(t, true, i)
      modifies n.content[i].footprint
      ensures ok ==> Underway(n, t, whole, i + 1)
      ensures !ok ==> n.AsTree() == t.(content := whole.items) && !whole.ok
      decreases n.footprint, 0
    {
      ghost var was := n.AsTree();
      assert was.content[i] == was.content[i..][0] == t.content[i..][0] == t.content[i];
      ok := Walk(n.content[i]);
      forall j | 0 <= j < |n.content| && j != i ensures n.content[j].AsTree() == old(n.content[j].AsTree()) {
        assert n.content[j].footprint !! n.content[i].footprint;
      }
      OneChild(n, i, was);
      DecodingAdvance(c, t, whole, was.content, i, T.Decoded(n.content[i].AsTree(), ok));
    }

    /** Lines 303-319. */
    method Walk(n: Node) returns (ok: bool)
      requires n.Valid()
      modifies n.footprint
      ensures T.Decoded(n.AsTree(), ok) == T.DecryptWalk(c, old(n.AsTree()), true)
      decreases n.footprint, 3
    {
      match n.kind {
        case Mapping => ok := MappingValues(n);
        case Scalar => ok := Scalar(n);
        case Alias => ok := true;
        case _ => ok := Children(n);
      }
    }

    /** Lines 322-329. */
    method Children(n: Node) returns (ok: bool)
      requires n.Valid() && (n.kind.Document? || n.kind.Sequence? || n.kind.Other?)
      modifies n.footprint
      ensures T.Decoded(n.AsTree(), ok) == T.DecryptWalk(c, old(n.AsTree()), true)
      decreases n.footprint, 2
    {
      ghost var t := n.AsTree();
      ghost var whole := T.DecryptFrom(c, t, true, 0);
      for i := 0 to |n.content|
        invariant Underway(n, t, whole, i)
      {
        ok := Child(n, i, t, whole);
        if !ok { return; }
      }
      ok := true;
    }

    /** Lines 335-337: one pair. */
    method Pair(n: Node, i: nat, ghost t: T.Tree, ghost whole: T.Decodeds) returns (ok: bool)
      requires n.Valid() && n.kind.Mapping? && i % 2 == 0 && i + 1 < |n.content| && Underway(n, t, whole, i)
      modifies n.footprint
      ensures ok ==> Underway(n, t, whole, i + 2)
      ensures !ok ==> n.AsTree() == t.(content := whole.items) && !whole.ok
      decreases n.footprint, 1
    {
      assert !T.ChildVisited(t, true, i) && T.ChildVisited(t, true, i + 1);
      DecodingSkip(c, t, whole, n.AsTree().content, i);
      ok := Child(n, i + 1, t, whole);
    }

    /** Lines 333-340. */
    method MappingValues(n: Node) returns (ok: bool)
      requires n.Valid() && n.kind.Mapping?
      modifies n.footprint
      ensures T.Decoded(n.AsTree(), ok) == T.DecryptWalk(c, old(n.AsTree()), true)
      decreases n.footprint, 2
    {
      ghost var t := n.AsTree();
      ghost var whole := T.DecryptFrom(c, t, true, 0);
      var i := 0;
      while i + 1 < |n.content|
        invariant 0 <= i <= |n.content| && i % 2 == 0 && Underway(n, t, whole, i)
        decreases |n.content| - i
      {
        ok := Pair(n, i, t, whole);
        if !ok { return; }
        i := i + 2;
      }
      if i < |n.content| { DecodingSkip(c, t, whole, n.AsTree().content, i); }
      ok := true;
    }

    /** Lines 346-361. */
    method Scalar(n: Node) returns (ok: bool)
      requires n.Valid()
      modifies n
      ensures T.Decoded(n.AsTree(), ok) == T.DecryptScalar(c, old(n.AsTree()))
    {
      if n.tag != "!!str" || !c.isEncrypted(n.value) { return true; }
      var plain := c.decrypt(n.value);
      if plain.None? { return false; }
      if c.isEncrypted(plain.value) { return false; }
      n.value := plain.value;
      n.tag := "!!str";
      n.style := 0;
      return true;
    }
  }
}
