/** The document as a forest of nodes with identities, and the one editing
    operation the highlighter uses: putting a list of nodes where a node was.
    Attributes other than the class and the name of an element play no part. */
module Dom {
  import opened Prelude

  /** Elements (node type 1), text and CDATA (3 and 4), and everything else. */
  datatype Node =
    | Element(id: nat, name: Text, cls: Text, kids: seq<Node>)
    | Chars(id: nat, value: Text)
    | Other(id: nat)

  /** An element as its descendants see it. */
  datatype Tag = Tag(name: Text, cls: Text)

  const NEWLINE: CodeUnit := 10
  const RETURN: CodeUnit := 13
  const SPACE: CodeUnit := 32

  /** `/(?:^|\s)nocode(?:\s|$)/` finds a match in a class attribute. */
  predicate IsNocode(cls: Text) {
    exists i :: 0 <= i <= |cls| - 6 && NocodeAt(cls, i)
  }

  predicate NocodeAt(cls: Text, i: nat)
    requires i + 6 <= |cls|
  {
    && cls[i..i+6] == Ascii("nocode")
    && (i == 0 || IsSpace(cls[i-1]))
    && (i + 6 == |cls| || IsSpace(cls[i+6]))
  }

  /** The attribute is the class, with white space or nothing next to it on either side. */
  ghost predicate HasWord(cls: Text, a: Text, b: Text) {
    cls == a + Ascii("nocode") + b && (a == [] || IsSpace(a[|a|-1])) && (b == [] || IsSpace(b[0]))
  }

  lemma WordIsThere(cls: Text, a: Text, b: Text)
    requires HasWord(cls, a, b)
    ensures IsNocode(cls)
  {
    hide IsSpace;
    var i := |a|;
    assert cls[i..i+6] == Ascii("nocode");
    assert i > 0 ==> cls[i-1] == a[i-1];
    assert b != [] ==> cls[i+6] == b[0];
    assert NocodeAt(cls, i);
  }

  lemma WordWasThere(cls: Text, i: nat)
    requires i + 6 <= |cls| && NocodeAt(cls, i)
    ensures HasWord(cls, cls[..i], cls[i+6..])
  {
    hide IsSpace;
    assert cls == cls[..i] + cls[i..i+6] + cls[i+6..];
  }

  /** The class is one of the words of the attribute. */
  lemma NocodeMeans(cls: Text)
    ensures IsNocode(cls) <==> exists a, b :: HasWord(cls, a, b)
  {
    hide HasWord;
    if i :| 0 <= i <= |cls| - 6 && NocodeAt(cls, i) { WordWasThere(cls, i); }
    if a: Text, b: Text :| HasWord(cls, a, b) { WordIsThere(cls, a, b); }
  }

  /** Lower-casing as far as comparing with an ASCII name needs it. */
  function ToLowerAscii(t: Text): (l: Text)
    ensures |l| == |t|
  {
    seq(|t|, i requires 0 <= i < |t| => if 65 <= t[i] <= 90 then t[i] + 32 else t[i])
  }

  /** The identities in a forest. */
  function Ids(ns: seq<Node>): set<nat> {
    if ns == [] then {} else {ns[0].id} + (if ns[0].Element? then Ids(ns[0].kids) else {}) + Ids(ns[1..])
  }

  /** No identity occurs twice. */
  predicate Distinct(ns: seq<Node>) {
    ns == [] ||
    (var below := if ns[0].Element? then Ids(ns[0].kids) else {};
     && (ns[0].Element? ==> Distinct(ns[0].kids))
     && ns[0].id !in below && ns[0].id !in Ids(ns[1..]) && below !! Ids(ns[1..])
     && Distinct(ns[1..]))
  }

  /** The forest with node `id` replaced, in its parent, by a list of nodes. */
  function Replace(ns: seq<Node>, id: nat, repl: seq<Node>): seq<Node> {
    if ns == [] then []
    else
      var n := ns[0];
      (if n.id == id then repl
       else if n.Element? then [n.(kids := Replace(n.kids, id, repl))]
       else [n]) + Replace(ns[1..], id, repl)
  }

  lemma {:induction false} ReplaceAppend(a: seq<Node>, b: seq<Node>, id: nat, repl: seq<Node>)
    ensures Replace(a + b, id, repl) == Replace(a, id, repl) + Replace(b, id, repl)
  {
    if a == [] {
      assert a + b == b;
    } else {
      assert (a + b)[1..] == a[1..] + b;
      ReplaceAppend(a[1..], b, id, repl);
    }
  }

  lemma {:induction false} ReplaceAbsent(ns: seq<Node>, id: nat, repl: seq<Node>)
    requires id !in Ids(ns)
    ensures Replace(ns, id, repl) == ns
  {
    if ns != [] {
      if ns[0].Element? { ReplaceAbsent(ns[0].kids, id, repl); }
      ReplaceAbsent(ns[1..], id, repl);
    }
  }

  lemma {:induction false} IdsAppend(a: seq<Node>, b: seq<Node>)
    ensures Ids(a + b) == Ids(a) + Ids(b)
  {
    if a == [] {
      assert a + b == b;
    } else {
      assert (a + b)[1..] == a[1..] + b;
      IdsAppend(a[1..], b);
    }
  }
}
