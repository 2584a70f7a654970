/**
 The meaning of the two walks of crypter/yaml/yaml.go over a YAML node tree as a value: what each walk
 does to every node, in document order, including the point at which an error stops it.
 */
module YamlTree {
  import opened Wrappers
  import Crypter

  type Text = Crypter.GoString

  datatype Kind = Document | Sequence | Mapping | Scalar | Alias | Other

  /** The parts of a yaml.v3 node that the walks read or write. */
  datatype Tree = Tree(kind: Kind, tag: string, value: Text, style: int, content: seq<Tree>)

  const DOUBLE_QUOTED := 2

  /** The injected crypter.  Encryption draws a nonce, so it may depend on how often it was called. */
  datatype Cipher = Cipher(
    encrypt: (nat, Text) -> Option<Text>,
    decrypt: Text -> Option<Text>,
    isEncrypted: Text -> bool)

  function Lower(c: char): char { if 'A' <= c <= 'Z' then (c as int + 32) as char else c }

  function LowerAll(s: string): string {
    if s == "" then "" else [Lower(s[0])] + LowerAll(s[1..])
  }

  predicate IsBoolLiteral(s: Text) {
    LowerAll(s) in {"yes", "no", "on", "off", "true", "false"}
  }

  predicate HasTemplate(s: Text) {
    exists i :: 0 <= i < |s| - 1 && s[i] == '{' && s[i + 1] == '{'
  }

  /** The words of YAML 1.1 that older parsers read as booleans. */
  const BOOL_WORDS := ["yes", "no", "on", "off", "true", "false"]

  /** Each letter of `s` is that of `word`, or its capital. */
  predicate SameButCase(s: string, word: string) {
    |s| == |word| && forall i :: 0 <= i < |s| ==>
      s[i] == word[i] || ('a' <= word[i] <= 'z' && s[i] as int == word[i] as int - 32)
  }

  lemma {:induction false} LowerIs(s: string, word: string)
    requires forall i :: 0 <= i < |word| ==> 'a' <= word[i] <= 'z'
    ensures LowerAll(s) == word <==> SameButCase(s, word)
  {
    if s != "" && word != "" {
      LowerIs(s[1..], word[1..]);
      assert LowerAll(s) == [Lower(s[0])] + LowerAll(s[1..]) && word == [word[0]] + word[1..];
      assert LowerAll(s) == word <==> Lower(s[0]) == word[0] && LowerAll(s[1..]) == word[1..];
      SameButCaseTail(s, word);
    }
  }

  lemma SameButCaseTail(s: string, word: string)
    requires s != "" && word != ""
    ensures SameButCase(s, word) <==> SameButCase(s[..1], word[..1]) && SameButCase(s[1..], word[1..])
  {
    if |s| == |word| {
      forall i | 1 <= i < |s| ensures s[i] == s[1..][i - 1] && word[i] == word[1..][i - 1] { }
    }
  }

  /** A boolean of YAML 1.1 is one of six words in any case. */
  lemma IsBoolLiteralIff(s: Text)
    ensures IsBoolLiteral(s) <==> exists i :: 0 <= i < |BOOL_WORDS| && SameButCase(s, BOOL_WORDS[i])
  {
    forall i | 0 <= i < |BOOL_WORDS| ensures LowerAll(s) == BOOL_WORDS[i] <==> SameButCase(s, BOOL_WORDS[i]) {
      LowerIs(s, BOOL_WORDS[i]);
    }
    assert BOOL_WORDS[0] == "yes" && BOOL_WORDS[1] == "no" && BOOL_WORDS[2] == "on";
    assert BOOL_WORDS[3] == "off" && BOOL_WORDS[4] == "true" && BOOL_WORDS[5] == "false";
  }

  lemma HasTemplateIff(s: Text)
    ensures HasTemplate(s) <==> exists a: string, b: string :: s == a + "{{" + b
  {
    if i :| 0 <= i < |s| - 1 && s[i] == '{' && s[i + 1] == '{' { assert s == s[..i] + "{{" + s[i + 2..]; }
    if a: string, b: string :| s == a + "{{" + b { assert s[|a|] == '{' && s[|a| + 1] == '{'; }
  }

  /** A scalar the encrypt walk looks at any further. */
  predicate Candidate(t: Tree) {
    t.tag == "!!str" && !IsBoolLiteral(t.value) && !HasTemplate(t.value)
  }

  /** Only strings, no booleans, no templates. */
  lemma CandidateIff(t: Tree)
    ensures Candidate(t) <==>
      && t.tag == "!!str"
      && (forall i :: 0 <= i < |BOOL_WORDS| ==> !SameButCase(t.value, BOOL_WORDS[i]))
      && (forall a: string, b: string :: t.value != a + "{{" + b)
  {
    IsBoolLiteralIff(t.value);
    HasTemplateIff(t.value);
  }

  // ----- the encrypt walk: lines 155-249

  /** How a node is reached: not at all, as an ordinary value (`walk`), or as a value under a secret key
      (`encryptSecret`). */
  datatype Role = Unreached | Plain | Secret

  function ChildRole(isSecret: Text -> bool, t: Tree, role: Role, i: nat): Role
    requires i < |t.content|
  {
    if role.Unreached? then Unreached
    else
      match t.kind
      case Sequence => role
      case Document => Plain
      case Mapping =>
        if i % 2 == 0 then Unreached else if isSecret(t.content[i - 1].value) then Secret else Plain
      case _ => Unreached
  }

  /** Calls made to `Encrypt`, and the two counters of `Stats`. */
  datatype Counts = Counts(calls: nat, encrypted: nat, skipped: nat)

  datatype Outcome = Outcome(tree: Tree, counts: Counts, ok: bool)

  datatype Outcomes = Outcomes(items: seq<Tree>, counts: Counts, ok: bool)

  function EncryptScalar(c: Cipher, t: Tree, n: Counts): Outcome {
    if !Candidate(t) then Outcome(t, n, true)
    else if c.isEncrypted(t.value) then Outcome(t, n.(skipped := n.skipped + 1), true)
    else
      match c.encrypt(n.calls, t.value)
      case None => Outcome(t, n.(calls := n.calls + 1), false)
      case Some(e) =>
        Outcome(t.(value := e, tag := "!!str", style := DOUBLE_QUOTED),
                n.(calls := n.calls + 1, encrypted := n.encrypted + 1), true)
  }

  function EncryptWalk(c: Cipher, isSecret: Text -> bool, t: Tree, role: Role, n: Counts): Outcome
    decreases t, |t.content| + 1
  {
    if role.Unreached? then Outcome(t, n, true)
    else if t.kind.Scalar? then
      if role.Secret? then EncryptScalar(c, t, n) else Outcome(t, n, true)
    else
      var w := EncryptFrom(c, isSecret, t, role, 0, n);
      Outcome(t.(content := w.items), w.counts, w.ok)
  }

  /** The children from `i` on, up to the first failure. */
  function EncryptFrom(c: Cipher, isSecret: Text -> bool, t: Tree, role: Role, i: nat, n: Counts): (w: Outcomes)
    requires i <= |t.content|
    ensures |w.items| == |t.content| - i
    decreases t, |t.content| - i
  {
    if i == |t.content| then Outcomes([], n, true)
    else
      var first := EncryptWalk(c, isSecret, t.content[i], ChildRole(isSecret, t, role, i), n);
      if !first.ok then Outcomes([first.tree] + t.content[i + 1..], first.counts, false)
      else
        var rest := EncryptFrom(c, isSecret, t, role, i + 1, first.counts);
        Outcomes([first.tree] + rest.items, rest.counts, rest.ok)
  }

  const ZERO := Counts(0, 0, 0)

  /** `EncryptBytes` between decoding and encoding, lines 129-135. */
  function EncryptDocument(c: Cipher, isSecret: Text -> bool, t: Tree): Outcome {
    EncryptWalk(c, isSecret, t, Plain, ZERO)
  }

  // ----- the decrypt walk: lines 303-361

  datatype Decoded = Decoded(tree: Tree, ok: bool)

  datatype Decodeds = Decodeds(items: seq<Tree>, ok: bool)

  function DecryptScalar(c: Cipher, t: Tree): Decoded {
    if t.tag != "!!str" || !c.isEncrypted(t.value) then Decoded(t, true)
    else
      match c.decrypt(t.value)
      case None => Decoded(t, false)
      case Some(plain) =>
        if c.isEncrypted(plain) then Decoded(t, false)
        else Decoded(t.(value := plain, tag := "!!str", style := 0), true)
  }

  predicate ChildVisited(t: Tree, visited: bool, i: nat) {
    visited && match t.kind
      case Mapping => i % 2 == 1
      case Scalar => false
      case Alias => false
      case _ => true
  }

  function DecryptWalk(c: Cipher, t: Tree, visited: bool): Decoded
    decreases t, |t.content| + 1
  {
    if !visited || t.kind.Alias? then Decoded(t, true)
    else if t.kind.Scalar? then DecryptScalar(c, t)
    else
      var w := DecryptFrom(c, t, visited, 0);
      Decoded(t.(content := w.items), w.ok)
  }

  function DecryptFrom(c: Cipher, t: Tree, visited: bool, i: nat): (w: Decodeds)
    requires i <= |t.content|
    ensures |w.items| == |t.content| - i
    decreases t, |t.content| - i
  {
    if i == |t.content| then Decodeds([], true)
    else
      var first := DecryptWalk(c, t.content[i], ChildVisited(t, visited, i));
      if !first.ok then Decodeds([first.tree] + t.content[i + 1..], false)
      else
        var rest := DecryptFrom(c, t, visited, i + 1);
        Decodeds([first.tree] + rest.items, rest.ok)
  }

  function DecryptDocument(c: Cipher, t: Tree): Decoded { DecryptWalk(c, t, true) }
}
