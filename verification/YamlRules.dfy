/**
 What the two YAML walks promise: which scalars the encrypt walk takes, by position in the document; what
 a second pass does; and when decrypting restores the document.
 */
module YamlRules {
  import opened Wrappers
  import opened YamlTree
  import Base64
  import Crypter

  /** Which candidates: those still to encrypt, those encrypted before, or both. */
  datatype Which = New | Already | Both

  predicate Picks(c: Cipher, which: Which, t: Tree) {
    t.kind.Scalar? && Candidate(t) && match which
      case New => !c.isEncrypted(t.value)
      case Already => c.isEncrypted(t.value)
      case Both => true
  }

  /** A scalar that the encrypt walk encrypts when it reaches it under a secret key. */
  predicate Takes(c: Cipher, t: Tree) { Picks(c, New, t) }

  /** `e` is what some call of `Encrypt` gives for `v`. */
  ghost predicate Sealed(c: Cipher, v: Text, e: Text) {
    exists k: nat :: c.encrypt(k, v) == Some(e)
  }

  predicate SameHead(t: Tree, u: Tree) {
    u.kind == t.kind && u.tag == t.tag && u.value == t.value && u.style == t.style
  }

  ghost predicate EncryptedScalar(c: Cipher, t: Tree, u: Tree) {
    Sealed(c, t.value, u.value) && u == t.(value := u.value, tag := "!!str", style := DOUBLE_QUOTED)
  }

  /** `u` is `t` with the scalars taken under `role` replaced by ciphertext, and nothing else changed. */
  ghost predicate Encrypts(c: Cipher, isSecret: Text -> bool, t: Tree, role: Role, u: Tree) {
    if t.kind.Scalar? then
      if role.Secret? && Takes(c, t) then EncryptedScalar(c, t, u) else u == t
    else
      && SameHead(t, u) && |u.content| == |t.content|
      && forall i :: 0 <= i < |t.content| ==>
           Encrypts(c, isSecret, t.content[i], ChildRole(isSecret, t, role, i), u.content[i])
  }

  lemma {:induction false} UnreachedKept(c: Cipher, isSecret: Text -> bool, t: Tree, u: Tree)
    ensures Encrypts(c, isSecret, t, Unreached, u) <==> u == t
    decreases t
  {
    if !t.kind.Scalar? && |u.content| == |t.content| {
      forall i | 0 <= i < |t.content|
        ensures Encrypts(c, isSecret, t.content[i], Unreached, u.content[i]) <==> u.content[i] == t.content[i]
      {
        UnreachedKept(c, isSecret, t.content[i], u.content[i]);
      }
    }
  }

  /** The walk's result, when no call of `Encrypt` fails. */
  lemma {:induction false} WalkEncrypts(c: Cipher, isSecret: Text -> bool, t: Tree, role: Role, n: Counts)
    requires EncryptWalk(c, isSecret, t, role, n).ok
    ensures Encrypts(c, isSecret, t, role, EncryptWalk(c, isSecret, t, role, n).tree)
    decreases t, |t.content| + 1
  {
    if role.Unreached? {
      UnreachedKept(c, isSecret, t, t);
    } else if !t.kind.Scalar? {
      FromEncrypts(c, isSecret, t, role, 0, n);
    }
  }

  /** The same of the children from `i` on. */
  ghost predicate EncryptsFrom(
    c: Cipher, isSecret: Text -> bool, t: Tree, role: Role, i: nat, items: seq<Tree>)
  {
    && i + |items| == |t.content|
    && forall j :: i <= j < |t.content| ==>
         Encrypts(c, isSecret, t.content[j], ChildRole(isSecret, t, role, j), items[j - i])
  }

  lemma EncryptsFromNext(
    c: Cipher, isSecret: Text -> bool, t: Tree, role: Role, i: nat, first: Tree, rest: seq<Tree>)
    requires i < |t.content| && Encrypts(c, isSecret, t.content[i], ChildRole(isSecret, t, role, i), first)
    requires EncryptsFrom(c, isSecret, t, role, i + 1, rest)
    ensures EncryptsFrom(c, isSecret, t, role, i, [first] + rest)
  {
    forall j | i <= j < |t.content|
      ensures Encrypts(c, isSecret, t.content[j], ChildRole(isSecret, t, role, j), ([first] + rest)[j - i])
    {
      if j > i { assert ([first] + rest)[j - i] == rest[j - (i + 1)]; }
    }
  }

  lemma {:induction false} FromEncrypts(c: Cipher, isSecret: Text -> bool, t: Tree, role: Role, i: nat, n: Counts)
    requires i <= |t.content| && EncryptFrom(c, isSecret, t, role, i, n).ok
    ensures EncryptsFrom(c, isSecret, t, role, i, EncryptFrom(c, isSecret, t, role, i, n).items)
    decreases t, |t.content| - i
  {
    if i < |t.content| {
      var first := EncryptWalk(c, isSecret, t.content[i], ChildRole(isSecret, t, role, i), n);
      var rest := EncryptFrom(c, isSecret, t, role, i + 1, first.counts);
      WalkEncrypts(c, isSecret, t.content[i], ChildRole(isSecret, t, role, i), n);
      FromEncrypts(c, isSecret, t, role, i + 1, first.counts);
      EncryptsFromNext(c, isSecret, t, role, i, first.tree, rest.items);
    }
  }

  // ----- positions: the declarative rule for what is taken

  /** A position in a document: the index of the child to take at each level. */
  type Path = seq<nat>

  predicate InTree(t: Tree, p: Path) {
    p == [] || (p[0] < |t.content| && InTree(t.content[p[0]], p[1..]))
  }

  function Node(t: Tree, p: Path): Tree
    requires InTree(t, p)
  {
    if p == [] then t else Node(t.content[p[0]], p[1..])
  }

  /** One step down: from the node `above` to its child at index `at`. */
  datatype Step = Step(above: Tree, at: nat)

  function Trail(t: Tree, p: Path): (steps: seq<Step>)
    requires InTree(t, p)
    ensures forall s :: s in steps ==> s.at < |s.above.content|
  {
    if p == [] then [] else [Step(t, p[0])] + Trail(t.content[p[0]], p[1..])
  }

  /** The step goes from a mapping to the value under a secret key. */
  predicate SecretStep(isSecret: Text -> bool, s: Step)
    requires s.at < |s.above.content|
  {
    s.above.kind.Mapping? && s.at % 2 == 1 && isSecret(s.above.content[s.at - 1].value)
  }

  /** Only documents, sequences and the values of mappings are entered. */
  predicate ValueStep(s: Step) {
    s.above.kind.Document? || s.above.kind.Sequence? || (s.above.kind.Mapping? && s.at % 2 == 1)
  }

  /** The nearest enclosing mapping key, reached through sequences only, is secret: some step goes to the
      value under a secret key and all later ones go into sequences. */
  predicate UnderSecretKey(isSecret: Text -> bool, steps: seq<Step>)
    requires forall s :: s in steps ==> s.at < |s.above.content|
  {
    && (forall q :: 0 <= q < |steps| ==> ValueStep(steps[q]))
    && (exists q :: 0 <= q < |steps| && SecretStep(isSecret, steps[q]) && SequencesFrom(steps, q + 1))
  }

  predicate SequencesFrom(steps: seq<Step>, q: nat) {
    forall r :: q <= r < |steps| ==> steps[r].above.kind.Sequence?
  }

  /** The role in which the walk reaches the end of a trail. */
  function RoleOver(isSecret: Text -> bool, role: Role, steps: seq<Step>): Role
    requires forall s :: s in steps ==> s.at < |s.above.content|
  {
    if steps == [] then role
    else
      var last := steps[|steps| - 1];
      ChildRole(isSecret, last.above, RoleOver(isSecret, role, steps[..|steps| - 1]), last.at)
  }

  lemma {:induction false} RoleOverFirst(isSecret: Text -> bool, role: Role, s: Step, steps: seq<Step>)
    requires s.at < |s.above.content| && forall r :: r in steps ==> r.at < |r.above.content|
    ensures RoleOver(isSecret, role, [s] + steps) ==
            RoleOver(isSecret, ChildRole(isSecret, s.above, role, s.at), steps)
  {
    if steps == [] {
      assert ([s] + steps)[..0] == [];
    } else {
      var k := |steps| - 1;
      assert ([s] + steps)[..k + 1] == [s] + steps[..k];
      RoleOverFirst(isSecret, role, s, steps[..k]);
    }
  }

  /** The mutual recursion of `walk` and `encryptSecret` computes the declarative rule. */
  lemma {:induction false} RoleIsRule(isSecret: Text -> bool, steps: seq<Step>)
    requires forall s :: s in steps ==> s.at < |s.above.content|
    ensures RoleOver(isSecret, Plain, steps).Unreached? <==> exists q :: 0 <= q < |steps| && !ValueStep(steps[q])
    ensures RoleOver(isSecret, Plain, steps).Secret? <==> UnderSecretKey(isSecret, steps)
  {
    if steps != [] {
      var k := |steps| - 1;
      RoleIsRule(isSecret, steps[..k]);
      UnderSecretKeyLast(isSecret, steps);
      if exists q :: 0 <= q < |steps| && !ValueStep(steps[q]) {
        var q :| 0 <= q < |steps| && !ValueStep(steps[q]);
        if q < k { assert !ValueStep(steps[..k][q]); }
      }
    }
  }

  lemma UnderSecretKeyLast(isSecret: Text -> bool, steps: seq<Step>)
    requires steps != [] && forall s :: s in steps ==> s.at < |s.above.content|
    ensures var k := |steps| - 1;
      UnderSecretKey(isSecret, steps) <==>
        ((forall q :: 0 <= q < |steps| ==> ValueStep(steps[q]))
         && (SecretStep(isSecret, steps[k])
             || (steps[k].above.kind.Sequence? && UnderSecretKey(isSecret, steps[..k]))))
  {
    var k := |steps| - 1;
    if UnderSecretKey(isSecret, steps) {
      var q :| 0 <= q < |steps| && SecretStep(isSecret, steps[q]) && SequencesFrom(steps, q + 1);
      if q < k {
        assert SecretStep(isSecret, steps[..k][q]) && SequencesFrom(steps[..k], q + 1);
      }
    }
    if SecretStep(isSecret, steps[k]) {
      assert SequencesFrom(steps, k + 1);
    }
    if steps[k].above.kind.Sequence? && UnderSecretKey(isSecret, steps[..k]) {
      var q :| 0 <= q < k && SecretStep(isSecret, steps[..k][q]) && SequencesFrom(steps[..k], q + 1);
      assert SequencesFrom(steps, q + 1) by {
        assert forall r :: q < r < k ==> steps[r] == steps[..k][r];
      }
      assert SecretStep(isSecret, steps[q]);
    }
  }

  // ----- the positions a walk picks

  function Under(i: nat, paths: set<Path>): set<Path> {
    set p | p in paths :: [i] + p
  }

  /** The positions of the picked scalars that the walk reaches in the role Secret. */
  function Picked(c: Cipher, isSecret: Text -> bool, which: Which, t: Tree, role: Role): set<Path>
    decreases t, |t.content| + 1
  {
    if t.kind.Scalar? then if role.Secret? && Picks(c, which, t) then {[]} else {}
    else PickedFrom(c, isSecret, which, t, role, 0)
  }

  function PickedFrom(c: Cipher, isSecret: Text -> bool, which: Which, t: Tree, role: Role, i: nat): set<Path>
    requires i <= |t.content|
    decreases t, |t.content| - i
  {
    if i == |t.content| then {}
    else
      Under(i, Picked(c, isSecret, which, t.content[i], ChildRole(isSecret, t, role, i)))
      + PickedFrom(c, isSecret, which, t, role, i + 1)
  }

  /** Membership in `Picked` by position alone. */
  predicate PickedAt(c: Cipher, isSecret: Text -> bool, which: Which, t: Tree, role: Role, p: Path) {
    InTree(t, p) && RoleOver(isSecret, role, Trail(t, p)).Secret? && Picks(c, which, Node(t, p))
  }

  lemma {:induction false} PickedIs(c: Cipher, isSecret: Text -> bool, which: Which, t: Tree, role: Role, p: Path)
    ensures p in Picked(c, isSecret, which, t, role) <==> PickedAt(c, isSecret, which, t, role, p)
    decreases t, |t.content| + 1
  {
    if t.kind.Scalar? {
      if p != [] && InTree(t, p) {
        RoleOverFirst(isSecret, role, Step(t, p[0]), Trail(t.content[p[0]], p[1..]));
        StaysUnreached(isSecret, Trail(t.content[p[0]], p[1..]));
      }
    } else {
      PickedFromIs(c, isSecret, which, t, role, 0, p);
      if p != [] && p[0] < |t.content| {
        PickedIs(c, isSecret, which, t.content[p[0]], ChildRole(isSecret, t, role, p[0]), p[1..]);
        if InTree(t, p) {
          RoleOverFirst(isSecret, role, Step(t, p[0]), Trail(t.content[p[0]], p[1..]));
        }
      }
    }
  }

  lemma {:induction false} PickedFromIs(
    c: Cipher, isSecret: Text -> bool, which: Which, t: Tree, role: Role, i: nat, p: Path)
    requires i <= |t.content|
    ensures p in PickedFrom(c, isSecret, which, t, role, i) <==>
      p != [] && i <= p[0] < |t.content|
      && p[1..] in Picked(c, isSecret, which, t.content[p[0]], ChildRole(isSecret, t, role, p[0]))
    decreases t, |t.content| - i
  {
    if i < |t.content| {
      PickedFromIs(c, isSecret, which, t, role, i + 1, p);
      if p != [] { assert p == [p[0]] + p[1..]; }
    }
  }

  lemma {:induction false} StaysUnreached(isSecret: Text -> bool, steps: seq<Step>)
    requires forall s :: s in steps ==> s.at < |s.above.content|
    ensures RoleOver(isSecret, Unreached, steps).Unreached?
  {
    if steps != [] {
      StaysUnreached(isSecret, steps[..|steps| - 1]);
    }
  }

  lemma UnderSize(i: nat, paths: set<Path>)
    ensures |Under(i, paths)| == |paths|
    decreases |paths|
  {
    if paths != {} {
      var p :| p in paths;
      UnderSize(i, paths - {p});
      assert Under(i, paths) == Under(i, paths - {p}) + {[i] + p};
      assert [i] + p !in Under(i, paths - {p}) by {
        forall q | q in paths - {p} ensures [i] + q != [i] + p {
          assert ([i] + q)[1..] == q && ([i] + p)[1..] == p;
        }
      }
    }
  }

  lemma PickedFromSize(c: Cipher, isSecret: Text -> bool, which: Which, t: Tree, role: Role, i: nat)
    requires i < |t.content|
    ensures |PickedFrom(c, isSecret, which, t, role, i)|
      == |Picked(c, isSecret, which, t.content[i], ChildRole(isSecret, t, role, i))|
         + |PickedFrom(c, isSecret, which, t, role, i + 1)|
  {
    var here := Under(i, Picked(c, isSecret, which, t.content[i], ChildRole(isSecret, t, role, i)));
    UnderSize(i, Picked(c, isSecret, which, t.content[i], ChildRole(isSecret, t, role, i)));
    forall p | p in here ensures p !in PickedFrom(c, isSecret, which, t, role, i + 1) {
      PickedFromIs(c, isSecret, which, t, role, i + 1, p);
    }
    assert here !! PickedFrom(c, isSecret, which, t, role, i + 1);
  }

  lemma {:induction false} UnreachedPicksNone(c: Cipher, isSecret: Text -> bool, which: Which, t: Tree, i: nat)
    requires i <= |t.content|
    ensures Picked(c, isSecret, which, t, Unreached) == {}
    ensures PickedFrom(c, isSecret, which, t, Unreached, i) == {}
    decreases t, |t.content| - i
  {
    forall p
      ensures p !in Picked(c, isSecret, which, t, Unreached)
      ensures p !in PickedFrom(c, isSecret, which, t, Unreached, i)
    {
      PickedIs(c, isSecret, which, t, Unreached, p);
      PickedFromIs(c, isSecret, which, t, Unreached, i, p);
      if InTree(t, p) { StaysUnreached(isSecret, Trail(t, p)); }
      if p != [] && p[0] < |t.content| {
        PickedIs(c, isSecret, which, t.content[p[0]], Unreached, p[1..]);
        if InTree(t.content[p[0]], p[1..]) { StaysUnreached(isSecret, Trail(t.content[p[0]], p[1..])); }
      }
    }
  }

  // ----- what the counters say

  function Add(n: Counts, taken: nat, already: nat): Counts {
    Counts(n.calls + taken, n.encrypted + taken, n.skipped + already)
  }

  lemma {:induction false} WalkCounts(c: Cipher, isSecret: Text -> bool, t: Tree, role: Role, n: Counts)
    requires EncryptWalk(c, isSecret, t, role, n).ok
    ensures EncryptWalk(c, isSecret, t, role, n).counts ==
      Add(n, |Picked(c, isSecret, New, t, role)|, |Picked(c, isSecret, Already, t, role)|)
    decreases t, |t.content| + 1
  {
    if role.Unreached? {
      UnreachedPicksNone(c, isSecret, New, t, 0);
      UnreachedPicksNone(c, isSecret, Already, t, 0);
    } else if !t.kind.Scalar? {
      FromCounts(c, isSecret, t, role, 0, n);
    }
  }

  lemma {:induction false} FromCounts(c: Cipher, isSecret: Text -> bool, t: Tree, role: Role, i: nat, n: Counts)
    requires i <= |t.content| && EncryptFrom(c, isSecret, t, role, i, n).ok
    ensures EncryptFrom(c, isSecret, t, role, i, n).counts ==
      Add(n, |PickedFrom(c, isSecret, New, t, role, i)|, |PickedFrom(c, isSecret, Already, t, role, i)|)
    decreases t, |t.content| - i
  {
    if i < |t.content| {
      WalkCounts(c, isSecret, t.content[i], ChildRole(isSecret, t, role, i), n);
      FromCounts(c, isSecret, t, role, i + 1,
        EncryptWalk(c, isSecret, t.content[i], ChildRole(isSecret, t, role, i), n).counts);
      PickedFromSize(c, isSecret, New, t, role, i);
      PickedFromSize(c, isSecret, Already, t, role, i);
    }
  }

  /** What `EncryptBytes` does to the tree, and to `Stats`, when it succeeds. */
  lemma EncryptDocumentByRule(c: Cipher, isSecret: Text -> bool, t: Tree)
    requires EncryptDocument(c, isSecret, t).ok
    ensures var r := EncryptDocument(c, isSecret, t);
      && (forall p :: InTree(r.tree, p) <==> InTree(t, p))
      && (forall p :: InTree(t, p) ==> ByRule(c, isSecret, t, p, Node(r.tree, p)))
      && r.counts.encrypted == r.counts.calls == |Picked(c, isSecret, New, t, Plain)|
      && r.counts.skipped == |Picked(c, isSecret, Already, t, Plain)|
    ensures forall which, p :: p in Picked(c, isSecret, which, t, Plain) <==>
      InTree(t, p) && UnderSecretKey(isSecret, Trail(t, p)) && Picks(c, which, Node(t, p))
  {
    var r := EncryptDocument(c, isSecret, t);
    WalkCounts(c, isSecret, t, Plain, ZERO);
    WalkEncrypts(c, isSecret, t, Plain, ZERO);
    forall p ensures InTree(r.tree, p) <==> InTree(t, p)
             ensures InTree(t, p) ==> ByRule(c, isSecret, t, p, Node(r.tree, p)) {
      EncryptsAt(c, isSecret, t, Plain, r.tree, p);
      if InTree(t, p) { RoleIsRule(isSecret, Trail(t, p)); }
    }
    forall which, p
      ensures p in Picked(c, isSecret, which, t, Plain) <==>
        InTree(t, p) && UnderSecretKey(isSecret, Trail(t, p)) && Picks(c, which, Node(t, p))
    {
      PickedIs(c, isSecret, which, t, Plain, p);
      if InTree(t, p) { RoleIsRule(isSecret, Trail(t, p)); }
    }
  }

  /** The node at `p` after the walk: an encrypted scalar where the rule says so, the same head elsewhere. */
  ghost predicate ByRule(c: Cipher, isSecret: Text -> bool, t: Tree, p: Path, after: Tree)
    requires InTree(t, p)
  {
    if UnderSecretKey(isSecret, Trail(t, p)) && Takes(c, Node(t, p)) then EncryptedScalar(c, Node(t, p), after)
    else SameHead(Node(t, p), after)
  }

  lemma {:induction false} EncryptsAt(
    c: Cipher, isSecret: Text -> bool, t: Tree, role: Role, u: Tree, p: Path)
    requires Encrypts(c, isSecret, t, role, u)
    ensures InTree(u, p) <==> InTree(t, p)
    ensures InTree(t, p) ==>
      if RoleOver(isSecret, role, Trail(t, p)).Secret? && Takes(c, Node(t, p))
      then EncryptedScalar(c, Node(t, p), Node(u, p))
      else SameHead(Node(t, p), Node(u, p))
    decreases p
  {
    if p != [] && p[0] < |t.content| {
      var child := t.content[p[0]];
      if t.kind.Scalar? {
        assert u.content == t.content;
        UnreachedKept(c, isSecret, child, child);
        EncryptsAt(c, isSecret, child, Unreached, child, p[1..]);
      } else {
        EncryptsAt(c, isSecret, child, ChildRole(isSecret, t, role, p[0]), u.content[p[0]], p[1..]);
      }
      if InTree(t, p) {
        RoleOverFirst(isSecret, role, Step(t, p[0]), Trail(child, p[1..]));
      }
    }
  }

  // ----- a second encrypt walk

  /** What the walk needs of the crypter: its output is tagged, no boolean literal, free of a template
      opening, and decrypts to what was encrypted. */
  ghost predicate Sound(c: Cipher) {
    forall v: Text, e: Text :: !c.isEncrypted(v) && Sealed(c, v, e) ==>
      c.isEncrypted(e) && !IsBoolLiteral(e) && !HasTemplate(e) && c.decrypt(e) == Some(v)
  }

  /** The walk leaves the keys alone, so it reaches every child in the same role again. */
  lemma RolesKept(c: Cipher, isSecret: Text -> bool, t: Tree, role: Role, u: Tree, i: nat)
    requires Encrypts(c, isSecret, t, role, u) && !t.kind.Scalar? && i < |t.content|
    ensures ChildRole(isSecret, u, role, i) == ChildRole(isSecret, t, role, i)
  {
    if t.kind.Mapping? && i % 2 == 1 { KeyKept(c, isSecret, t, role, u, i - 1); }
  }

  lemma KeyKept(c: Cipher, isSecret: Text -> bool, t: Tree, role: Role, u: Tree, i: nat)
    requires Encrypts(c, isSecret, t, role, u) && t.kind.Mapping? && i < |t.content| && i % 2 == 0
    ensures i < |u.content| && u.content[i] == t.content[i]
  {
    KeyIsUnreached(isSecret, t, role, i);
    assert Encrypts(c, isSecret, t.content[i], ChildRole(isSecret, t, role, i), u.content[i]);
    UnreachedKept(c, isSecret, t.content[i], u.content[i]);
  }

  lemma KeyIsUnreached(isSecret: Text -> bool, t: Tree, role: Role, i: nat)
    requires t.kind.Mapping? && i < |t.content| && i % 2 == 0
    ensures ChildRole(isSecret, t, role, i) == Unreached
  {
  }

  /** A second walk changes nothing and skips every candidate of the first. */
  lemma {:induction false} WalkAgain(c: Cipher, isSecret: Text -> bool, t: Tree, role: Role, u: Tree, n: Counts)
    requires Sound(c) && Encrypts(c, isSecret, t, role, u)
    ensures EncryptWalk(c, isSecret, u, role, n) == Outcome(u, Add(n, 0, |Picked(c, isSecret, Both, t, role)|), true)
    decreases t, |t.content| + 1
  {
    if role.Unreached? {
      UnreachedPicksNone(c, isSecret, Both, t, 0);
    } else if !t.kind.Scalar? {
      FromAgain(c, isSecret, t, role, u, 0, n);
    }
  }

  lemma {:induction false} FromAgain(
    c: Cipher, isSecret: Text -> bool, t: Tree, role: Role, u: Tree, i: nat, n: Counts)
    requires Sound(c) && Encrypts(c, isSecret, t, role, u) && !t.kind.Scalar? && i <= |t.content|
    ensures EncryptFrom(c, isSecret, u, role, i, n) ==
      Outcomes(u.content[i..], Add(n, 0, |PickedFrom(c, isSecret, Both, t, role, i)|), true)
    decreases t, |t.content| - i
  {
    if i < |t.content| {
      var child := ChildRole(isSecret, t, role, i);
      RolesKept(c, isSecret, t, role, u, i);
      assert u.content[i..] == [u.content[i]] + u.content[i + 1..];
      assert Encrypts(c, isSecret, t.content[i], child, u.content[i]);
      WalkAgain(c, isSecret, t.content[i], child, u.content[i], n);
      FromAgain(c, isSecret, t, role, u, i + 1, Add(n, 0, |Picked(c, isSecret, Both, t.content[i], child)|));
      PickedFromSize(c, isSecret, Both, t, role, i);
    }
  }

  lemma BothSize(c: Cipher, isSecret: Text -> bool, t: Tree, role: Role)
    ensures |Picked(c, isSecret, Both, t, role)| ==
      |Picked(c, isSecret, New, t, role)| + |Picked(c, isSecret, Already, t, role)|
  {
    var a, b := Picked(c, isSecret, New, t, role), Picked(c, isSecret, Already, t, role);
    forall p ensures p in Picked(c, isSecret, Both, t, role) <==> p in a || p in b
             ensures !(p in a && p in b) {
      PickedIs(c, isSecret, New, t, role, p);
      PickedIs(c, isSecret, Already, t, role, p);
      PickedIs(c, isSecret, Both, t, role, p);
    }
    assert a !! b && Picked(c, isSecret, Both, t, role) == a + b;
  }

  /** A second encrypt walk is the identity: it encrypts nothing and skips exactly what the first walk
      encrypted or skipped. */
  lemma EncryptTwice(c: Cipher, isSecret: Text -> bool, t: Tree)
    requires Sound(c) && EncryptDocument(c, isSecret, t).ok
    ensures var first := EncryptDocument(c, isSecret, t);
      EncryptDocument(c, isSecret, first.tree) ==
        Outcome(first.tree, Counts(0, 0, first.counts.encrypted + first.counts.skipped), true)
  {
    var first := EncryptDocument(c, isSecret, t);
    WalkEncrypts(c, isSecret, t, Plain, ZERO);
    WalkCounts(c, isSecret, t, Plain, ZERO);
    BothSize(c, isSecret, t, Plain);
    WalkAgain(c, isSecret, t, Plain, first.tree, ZERO);
  }

  // ----- the decrypt walk

  predicate Tagged(c: Cipher, t: Tree) {
    t.kind.Scalar? && t.tag == "!!str" && c.isEncrypted(t.value)
  }

  /** No tagged string is in a position that the decrypt walk visits. */
  predicate Untagged(c: Cipher, t: Tree, visited: bool) {
    (visited ==> !Tagged(c, t))
    && forall i :: 0 <= i < |t.content| ==> Untagged(c, t.content[i], ChildVisited(t, visited, i))
  }

  /** Every tagged string that is visited decrypts, to an untagged one. */
  predicate Decryptable(c: Cipher, t: Tree, visited: bool) {
    (visited && Tagged(c, t) ==> c.decrypt(t.value).Some? && !c.isEncrypted(c.decrypt(t.value).value))
    && forall i :: 0 <= i < |t.content| ==> Decryptable(c, t.content[i], ChildVisited(t, visited, i))
  }

  /** `u` is `t` with the tagged strings that are visited replaced by their plaintexts. */
  predicate Decrypts(c: Cipher, t: Tree, visited: bool, u: Tree) {
    && |u.content| == |t.content|
    && (if visited && Tagged(c, t)
        then u == t.(value := u.value, style := 0) && c.decrypt(t.value) == Some(u.value) && !c.isEncrypted(u.value)
        else SameHead(t, u))
    && forall i :: 0 <= i < |t.content| ==> Decrypts(c, t.content[i], ChildVisited(t, visited, i), u.content[i])
  }

  lemma {:induction false} UnvisitedKept(c: Cipher, t: Tree, u: Tree)
    ensures Untagged(c, t, false) && Decryptable(c, t, false)
    ensures Decrypts(c, t, false, u) <==> u == t
    decreases t
  {
    forall i | 0 <= i < |t.content|
      ensures Untagged(c, t.content[i], false) && Decryptable(c, t.content[i], false)
      ensures |u.content| == |t.content| ==>
        (Decrypts(c, t.content[i], false, u.content[i]) <==> u.content[i] == t.content[i])
    {
      UnvisitedKept(c, t.content[i], if i < |u.content| then u.content[i] else t.content[i]);
    }
  }

  /** The decrypt walk succeeds exactly when every tagged string it visits decrypts to an untagged one,
      and then replaces those and nothing else. */
  lemma {:induction false} DecryptWalkIff(c: Cipher, t: Tree, visited: bool)
    ensures DecryptWalk(c, t, visited).ok <==> Decryptable(c, t, visited)
    ensures DecryptWalk(c, t, visited).ok ==> Decrypts(c, t, visited, DecryptWalk(c, t, visited).tree)
    decreases t, |t.content| + 1
  {
    if !visited {
      UnvisitedKept(c, t, t);
    } else if t.kind.Scalar? || t.kind.Alias? {
      forall i | 0 <= i < |t.content|
        ensures Decryptable(c, t.content[i], false) && Decrypts(c, t.content[i], false, t.content[i])
      {
        UnvisitedKept(c, t.content[i], t.content[i]);
      }
    } else {
      DecryptFromIff(c, t, visited, 0);
    }
  }

  /** The same of the children from `i` on. */
  predicate DecryptableFrom(c: Cipher, t: Tree, visited: bool, i: nat) {
    forall j :: i <= j < |t.content| ==> Decryptable(c, t.content[j], ChildVisited(t, visited, j))
  }

  predicate DecryptsFrom(c: Cipher, t: Tree, visited: bool, i: nat, items: seq<Tree>) {
    && i + |items| == |t.content|
    && forall j :: i <= j < |t.content| ==> Decrypts(c, t.content[j], ChildVisited(t, visited, j), items[j - i])
  }

  lemma DecryptsFromNext(c: Cipher, t: Tree, visited: bool, i: nat, first: Tree, rest: seq<Tree>)
    requires i < |t.content| && Decrypts(c, t.content[i], ChildVisited(t, visited, i), first)
    requires DecryptsFrom(c, t, visited, i + 1, rest)
    ensures DecryptsFrom(c, t, visited, i, [first] + rest)
  {
    forall j | i <= j < |t.content|
      ensures Decrypts(c, t.content[j], ChildVisited(t, visited, j), ([first] + rest)[j - i])
    {
      if j > i { assert ([first] + rest)[j - i] == rest[j - (i + 1)]; }
    }
  }

  lemma {:induction false} DecryptFromIff(c: Cipher, t: Tree, visited: bool, i: nat)
    requires i <= |t.content|
    ensures DecryptFrom(c, t, visited, i).ok <==> DecryptableFrom(c, t, visited, i)
    ensures DecryptFrom(c, t, visited, i).ok ==> DecryptsFrom(c, t, visited, i, DecryptFrom(c, t, visited, i).items)
    decreases t, |t.content| - i
  {
    if i < |t.content| {
      var first := DecryptWalk(c, t.content[i], ChildVisited(t, visited, i));
      var rest := DecryptFrom(c, t, visited, i + 1);
      DecryptWalkIff(c, t.content[i], ChildVisited(t, visited, i));
      DecryptFromIff(c, t, visited, i + 1);
      assert DecryptableFrom(c, t, visited, i) <==> first.ok && rest.ok;
      if first.ok && rest.ok {
        DecryptsFromNext(c, t, visited, i, first.tree, rest.items);
      }
    }
  }

  /** What decrypting leaves has no tagged string where the walk visits. */
  lemma {:induction false} DecryptsUntagged(c: Cipher, t: Tree, visited: bool, u: Tree)
    requires Decrypts(c, t, visited, u)
    ensures Untagged(c, u, visited)
    decreases t
  {
    forall i | 0 <= i < |t.content| ensures Untagged(c, u.content[i], ChildVisited(u, visited, i)) {
      DecryptsUntagged(c, t.content[i], ChildVisited(t, visited, i), u.content[i]);
    }
  }

  lemma {:induction false} UntaggedDecryptsToItself(c: Cipher, t: Tree, visited: bool)
    requires Untagged(c, t, visited)
    ensures Decryptable(c, t, visited) && forall u :: Decrypts(c, t, visited, u) ==> u == t
    decreases t
  {
    forall i | 0 <= i < |t.content|
      ensures Decryptable(c, t.content[i], ChildVisited(t, visited, i))
      ensures forall v :: Decrypts(c, t.content[i], ChildVisited(t, visited, i), v) ==> v == t.content[i]
    {
      UntaggedDecryptsToItself(c, t.content[i], ChildVisited(t, visited, i));
    }
  }

  /** The trail goes into no key of a mapping, no scalar and no alias. */
  predicate Entered(steps: seq<Step>) {
    forall s :: s in steps ==>
      !s.above.kind.Scalar? && !s.above.kind.Alias? && (s.above.kind.Mapping? ==> s.at % 2 == 1)
  }

  /** A tagged string in a position that is entered. */
  predicate TaggedAt(c: Cipher, t: Tree, visited: bool, p: Path)
    requires InTree(t, p)
  {
    visited && Entered(Trail(t, p)) && Tagged(c, Node(t, p))
  }

  /** The ciphertext is that of an untagged string. */
  predicate Opens(c: Cipher, t: Tree) {
    c.decrypt(t.value).Some? && !c.isEncrypted(c.decrypt(t.value).value)
  }

  lemma EnteredFirst(s: Step, steps: seq<Step>)
    requires s.at < |s.above.content|
    ensures Entered([s] + steps) <==> ChildVisited(s.above, true, s.at) && Entered(steps)
  {
    assert forall r :: r in [s] + steps <==> r == s || r in steps;
  }

  lemma {:induction false} DecryptsAt(c: Cipher, t: Tree, visited: bool, u: Tree, p: Path)
    requires Decrypts(c, t, visited, u)
    ensures InTree(u, p) <==> InTree(t, p)
    ensures InTree(t, p) ==> DecryptedByRule(c, t, visited, p, Node(u, p))
    decreases p
  {
    if p != [] && p[0] < |t.content| {
      DecryptsAt(c, t.content[p[0]], ChildVisited(t, visited, p[0]), u.content[p[0]], p[1..]);
      if InTree(t, p) { EnteredFirst(Step(t, p[0]), Trail(t.content[p[0]], p[1..])); }
    }
  }

  /** The node at `p` after the walk: a plaintext in place of a tagged string where the walk enters, the same head
      elsewhere. */
  predicate DecryptedByRule(c: Cipher, t: Tree, visited: bool, p: Path, after: Tree)
    requires InTree(t, p)
  {
    var was := Node(t, p);
    if TaggedAt(c, t, visited, p) then
      after == was.(value := after.value, style := 0) && c.decrypt(was.value) == Some(after.value)
    else SameHead(was, after)
  }

  lemma {:induction false} DecryptableAt(c: Cipher, t: Tree, visited: bool, p: Path)
    requires Decryptable(c, t, visited) && InTree(t, p) && TaggedAt(c, t, visited, p)
    ensures Opens(c, Node(t, p))
    decreases p
  {
    if p != [] {
      EnteredFirst(Step(t, p[0]), Trail(t.content[p[0]], p[1..]));
      DecryptableAt(c, t.content[p[0]], ChildVisited(t, visited, p[0]), p[1..]);
    }
  }

  lemma {:induction false} FirstClosed(c: Cipher, t: Tree, visited: bool) returns (p: Path)
    requires !Decryptable(c, t, visited)
    ensures InTree(t, p) && TaggedAt(c, t, visited, p) && !Opens(c, Node(t, p))
    decreases t
  {
    p := [];
    if !visited {
      UnvisitedKept(c, t, t);
    } else if Tagged(c, t) ==> Opens(c, t) {
      var i: nat :| i < |t.content| && !Decryptable(c, t.content[i], ChildVisited(t, visited, i));
      p := FirstClosed(c, t.content[i], ChildVisited(t, visited, i));
      EnteredFirst(Step(t, i), Trail(t.content[i], p));
      p := [i] + p;
    }
  }

  /** What `DecryptBytes` does to the tree, by position: it succeeds if and only if every tagged string where the walk
      enters opens to an untagged one, and then these are replaced and all else is as it was. */
  lemma DecryptDocumentByRule(c: Cipher, t: Tree)
    ensures DecryptDocument(c, t).ok <==>
      forall p :: InTree(t, p) && TaggedAt(c, t, true, p) ==> Opens(c, Node(t, p))
    ensures DecryptDocument(c, t).ok ==>
      var u := DecryptDocument(c, t).tree;
      forall p :: (InTree(u, p) <==> InTree(t, p))
        && (InTree(t, p) ==> DecryptedByRule(c, t, true, p, Node(u, p)))
  {
    DecryptWalkIff(c, t, true);
    if Decryptable(c, t, true) {
      var u := DecryptDocument(c, t).tree;
      forall p ensures InTree(u, p) <==> InTree(t, p)
               ensures InTree(t, p) ==> DecryptedByRule(c, t, true, p, Node(u, p)) {
        DecryptsAt(c, t, true, u, p);
      }
      forall p | InTree(t, p) && TaggedAt(c, t, true, p) ensures Opens(c, Node(t, p)) {
        DecryptableAt(c, t, true, p);
      }
    } else {
      var p := FirstClosed(c, t, true);
    }
  }

  lemma {:induction false} UntaggedIsDecryptable(c: Cipher, none: Cipher, t: Tree, visited: bool)
    requires none == c.(decrypt := (_: Text) => None)
    ensures Untagged(c, t, visited) <==> Decryptable(none, t, visited)
    decreases t
  {
    forall i | 0 <= i < |t.content|
      ensures Untagged(c, t.content[i], ChildVisited(t, visited, i))
         <==> Decryptable(none, t.content[i], ChildVisited(t, visited, i))
    {
      UntaggedIsDecryptable(c, none, t.content[i], ChildVisited(t, visited, i));
    }
  }

  /** A document is untagged, as the round trip asks for, when no position that the walk enters has a tagged
      string. */
  lemma UntaggedIff(c: Cipher, t: Tree)
    ensures Untagged(c, t, true) <==> forall p :: InTree(t, p) ==> !TaggedAt(c, t, true, p)
  {
    var none := c.(decrypt := (_: Text) => None);
    UntaggedIsDecryptable(c, none, t, true);
    DecryptWalkIff(none, t, true);
    DecryptDocumentByRule(none, t);
  }

  /** A successful decrypt walk leaves no tagged string in a value position, and is idempotent. */
  lemma DecryptTwice(c: Cipher, t: Tree)
    requires DecryptDocument(c, t).ok
    ensures Untagged(c, DecryptDocument(c, t).tree, true)
    ensures DecryptDocument(c, DecryptDocument(c, t).tree) == Decoded(DecryptDocument(c, t).tree, true)
  {
    var u := DecryptDocument(c, t).tree;
    DecryptWalkIff(c, t, true);
    DecryptsUntagged(c, t, true, u);
    UntaggedDecryptsToItself(c, u, true);
    DecryptWalkIff(c, u, true);
  }

  // ----- the round trip

  /** `u` is `t` up to the style of the scalars that the encrypt walk takes. */
  predicate RestoredUpToStyle(c: Cipher, isSecret: Text -> bool, t: Tree, role: Role, u: Tree) {
    if t.kind.Scalar? then u == if role.Secret? && Takes(c, t) then t.(style := 0) else t
    else
      && SameHead(t, u) && |u.content| == |t.content|
      && forall i :: 0 <= i < |t.content| ==>
           RestoredUpToStyle(c, isSecret, t.content[i], ChildRole(isSecret, t, role, i), u.content[i])
  }

  lemma {:induction false} DecryptUndoesEncrypt(
    c: Cipher, isSecret: Text -> bool, t: Tree, role: Role, visited: bool, u: Tree, v: Tree)
    requires Sound(c) && Encrypts(c, isSecret, t, role, u) && Untagged(c, t, visited)
    requires !role.Unreached? ==> visited
    ensures Decryptable(c, u, visited)
    ensures Decrypts(c, u, visited, v) ==> RestoredUpToStyle(c, isSecret, t, role, v)
    decreases t
  {
    if t.kind.Scalar? {
      if !(role.Secret? && Takes(c, t)) {
        UntaggedDecryptsToItself(c, t, visited);
      } else {
        forall i | 0 <= i < |u.content|
          ensures Decryptable(c, u.content[i], false)
          ensures |v.content| == |u.content| ==>
            (Decrypts(c, u.content[i], false, v.content[i]) <==> v.content[i] == u.content[i])
        {
          UnvisitedKept(c, u.content[i], if i < |v.content| then v.content[i] else u);
        }
      }
    } else {
      forall i | 0 <= i < |t.content|
        ensures Decryptable(c, u.content[i], ChildVisited(u, visited, i))
        ensures Decrypts(c, u, visited, v) ==>
          RestoredUpToStyle(c, isSecret, t.content[i], ChildRole(isSecret, t, role, i), v.content[i])
      {
        DecryptUndoesEncrypt(c, isSecret, t.content[i], ChildRole(isSecret, t, role, i), ChildVisited(t, visited, i),
          u.content[i], if i < |v.content| then v.content[i] else v);
      }
    }
  }

  /** A tagged string in a value position of the original is not restored. */
  lemma {:induction false} TaggedIsLost(
    c: Cipher, isSecret: Text -> bool, t: Tree, role: Role, visited: bool, u: Tree, v: Tree)
    requires Encrypts(c, isSecret, t, role, u) && !Untagged(c, t, visited)
    requires Decrypts(c, u, visited, v) && RestoredUpToStyle(c, isSecret, t, role, v)
    ensures false
    decreases t
  {
    if visited && Tagged(c, t) {
      assert false;
    } else {
      var i :| 0 <= i < |t.content| && !Untagged(c, t.content[i], ChildVisited(t, visited, i));
      if t.kind.Scalar? {
        UnvisitedKept(c, t.content[i], t.content[i]);
        assert false;
      } else {
        TaggedIsLost(c, isSecret, t.content[i], ChildRole(isSecret, t, role, i), ChildVisited(t, visited, i),
          u.content[i], v.content[i]);
      }
    }
  }

  /** Decrypting an encrypted document restores it, up to the style of the scalars encrypted, exactly when
      the original has no tagged string in a value position. */
  lemma RoundTripIff(c: Cipher, isSecret: Text -> bool, t: Tree)
    requires Sound(c) && EncryptDocument(c, isSecret, t).ok
    ensures var d := DecryptDocument(c, EncryptDocument(c, isSecret, t).tree);
      (d.ok && RestoredUpToStyle(c, isSecret, t, Plain, d.tree)) <==> Untagged(c, t, true)
  {
    var u := EncryptDocument(c, isSecret, t).tree;
    var d := DecryptDocument(c, u);
    WalkEncrypts(c, isSecret, t, Plain, ZERO);
    DecryptWalkIff(c, u, true);
    if Untagged(c, t, true) {
      DecryptUndoesEncrypt(c, isSecret, t, Plain, true, u, d.tree);
    } else if d.ok && RestoredUpToStyle(c, isSecret, t, Plain, d.tree) {
      TaggedIsLost(c, isSecret, t, Plain, true, u, d.tree);
    }
  }

  // ----- with the crypter of the repository

  /** The crypter of crypter/crypter.go under one key; `random` gives what the k-th read of random bytes
      gives. */
  function WithAead(a: Crypter.Aead, random: nat -> Option<Base64.Bytes>): Cipher {
    Cipher(
      (k: nat, v: Text) =>
        match Crypter.Encrypted(a, random(k), v) case Ok(e) => Some(e) case Err(_) => None,
      (v: Text) =>
        match Crypter.Decrypt(a, v) case Ok(p) => Some(p) case Err(_) => None,
      (v: Text) => Crypter.IsEncrypted(v))
  }

  lemma {:induction false} LowerAllKeepsLength(s: string)
    ensures |LowerAll(s)| == |s|
  {
    if s != "" { LowerAllKeepsLength(s[1..]); }
  }

  lemma AeadIsSound(a: Crypter.Aead, random: nat -> Option<Base64.Bytes>)
    requires Crypter.Lawful(a)
    requires forall k :: random(k).Some? ==> |random(k).value| == Crypter.NONCE_SIZE
    ensures Sound(WithAead(a, random))
  {
    var c := WithAead(a, random);
    forall v: Text, e: Text | !c.isEncrypted(v) && Sealed(c, v, e)
      ensures c.isEncrypted(e) && !IsBoolLiteral(e) && !HasTemplate(e) && c.decrypt(e) == Some(v)
    {
      var k: nat :| c.encrypt(k, v) == Some(e);
      Crypter.EncryptOutput(a, random(k), v, None);
      Crypter.DecryptUndoesEncrypt(a, random(k).value, v);
      LowerAllKeepsLength(e);
    }
  }

  /** The document round trip with the repository's own crypter, as long as random bytes can be read. */
  lemma DocumentRoundTripIff(a: Crypter.Aead, random: nat -> Option<Base64.Bytes>, isSecret: Text -> bool, t: Tree)
    requires Crypter.Lawful(a)
    requires forall k :: random(k).Some? && |random(k).value| == Crypter.NONCE_SIZE
    ensures var c := WithAead(a, random);
      var e := EncryptDocument(c, isSecret, t);
      var d := DecryptDocument(c, e.tree);
      e.ok && ((d.ok && RestoredUpToStyle(c, isSecret, t, Plain, d.tree)) <==> Untagged(c, t, true))
  {
    var c := WithAead(a, random);
    AeadIsSound(a, random);
    WalkFailsWithEncrypt(c, isSecret, t, Plain, ZERO);
    RoundTripIff(c, isSecret, t);
  }

  ghost predicate SomeCallFails(c: Cipher, k: nat) {
    exists v: Text :: c.encrypt(k, v) == None
  }

  /** The walk fails only where a call of `Encrypt` failed, the last one made. */
  lemma {:induction false} WalkFailsWithEncrypt(c: Cipher, isSecret: Text -> bool, t: Tree, role: Role, n: Counts)
    ensures var w := EncryptWalk(c, isSecret, t, role, n);
      !w.ok ==> w.counts.calls > 0 && SomeCallFails(c, w.counts.calls - 1)
    decreases t, |t.content| + 1
  {
    if !role.Unreached? && !t.kind.Scalar? {
      FromFailsWithEncrypt(c, isSecret, t, role, 0, n);
    }
  }

  lemma {:induction false} FromFailsWithEncrypt(
    c: Cipher, isSecret: Text -> bool, t: Tree, role: Role, i: nat, n: Counts)
    requires i <= |t.content|
    ensures var w := EncryptFrom(c, isSecret, t, role, i, n);
      !w.ok ==> w.counts.calls > 0 && SomeCallFails(c, w.counts.calls - 1)
    decreases t, |t.content| - i
  {
    if i < |t.content| {
      var child := ChildRole(isSecret, t, role, i);
      WalkFailsWithEncrypt(c, isSecret, t.content[i], child, n);
      FromFailsWithEncrypt(c, isSecret, t, role, i + 1, EncryptWalk(c, isSecret, t.content[i], child, n).counts);
    }
  }
}
