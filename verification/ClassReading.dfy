/** What a character class denotes in JavaScript, against what the folder takes it
    for: where the two readings agree, and what folding then does. */
module ClassReading {
  import opened Prelude
  import opened EscapeCodec
  import opened EscapeMeaning
  import opened CodeRanges
  import opened CharClass

  // ---- escapes for sets of characters ----

  /** `\c`, which takes a following letter, digit or underscore along. */
  const CONTROL_TOKEN: Text := [BACKSLASH, 99]

  predicate IsControlLetter(tok: Text) {
    |tok| == 1 && (48 <= tok[0] <= 57 || 65 <= tok[0] <= 90 || tok[0] == 95 || 97 <= tok[0] <= 122)
  }

  /** `\d`, `\s`, `\w` and their capitals. */
  predicate IsSet(tok: Text) {
    |tok| == 2 && tok[0] == BACKSLASH && tok[1] in {100, 115, 119, 68, 83, 87}
  }

  const B_TOKEN: Text := [BACKSLASH, 66]  // \B

  /** What an escape that the folder copies denotes in a class, by its letter. */
  function EscapeRanges(letter: int): seq<Range> {
    if letter == 100 then [Range(48, 57)]
    else if letter == 68 then [Range(0, 47), Range(58, 0xFFFF)]
    else if letter == 119 then [Range(48, 57), Range(65, 90), Range(95, 95), Range(97, 122)]
    else if letter == 87 then [Range(0, 47), Range(58, 64), Range(91, 94), Range(96, 96), Range(123, 0xFFFF)]
    else if letter == 115 then SPACES
    else if letter == 83 then NO_SPACES
    else if letter == 98 then [Range(8, 8)]
    else [Range(letter, letter)]
  }

  const SPACES: seq<Range> :=
    [Range(9, 13), Range(32, 32), Range(160, 160), Range(5760, 5760), Range(8192, 8202), Range(8232, 8233),
     Range(8239, 8239), Range(8287, 8287), Range(12288, 12288), Range(65279, 65279)]

  const NO_SPACES: seq<Range> :=
    [Range(0, 8), Range(14, 31), Range(33, 159), Range(161, 5759), Range(5761, 8191), Range(8203, 8231),
     Range(8234, 8238), Range(8240, 8286), Range(8288, 12287), Range(12289, 65278), Range(65280, 65535)]

  lemma SpaceIsListed(c: CodeUnit)
    requires IsSpace(c)
    ensures InRanges(SPACES, c)
  {
    var i := if 9 <= c <= 13 then 0 else if c == 32 then 1 else if c == 160 then 2 else if c == 5760 then 3
             else if 8192 <= c <= 8202 then 4 else if c <= 8233 then 5 else if c == 8239 then 6 else if c == 8287 then 7
             else if c == 12288 then 8 else 9;
    assert SPACES[i].lo <= c <= SPACES[i].hi;
    assert SPACES[i] in SPACES;
  }

  lemma ListedIsSpace(c: CodeUnit, i: nat)
    requires i < |SPACES| && SPACES[i].lo <= c <= SPACES[i].hi
    ensures IsSpace(c)
  {}

  /** White space is the same in a class and elsewhere. */
  lemma SpacesAreSpace(c: CodeUnit)
    ensures InRanges(SPACES, c) <==> IsSpace(c)
  {
    hide IsSpace;
    if IsSpace(c) { SpaceIsListed(c); }
    if InRanges(SPACES, c) {
      var r :| r in SPACES && r.lo <= c <= r.hi;
      var i: nat :| i < |SPACES| && SPACES[i] == r;
      ListedIsSpace(c, i);
    }
  }

  // ---- JavaScript's reading ----

  datatype Atom = One(c: int) | SetOf(letter: int) | Dash

  datatype Item = Span(lo: int, hi: int) | Escape(letter: int) | Garbled

  /** The character an escape stands for; `\x` and `\u` without their digits stand for
      their letters. */
  function JsValue(tok: Text): (v: int)
    requires tok != []
    ensures v == if DecodeEscape(tok).Some? then DecodeEscape(tok).value else tok[|tok|-1]
  {
    DecodedIsMeant(tok);
    if TokenCode(tok).Some? then TokenCode(tok).value else tok[|tok|-1]
  }

  function AtomOf(tok: Text): Atom
    requires tok != []
  {
    if tok == HYPHEN_TOKEN then Dash else if IsSet(tok) then SetOf(tok[1]) else One(JsValue(tok))
  }

  predicate AreTokens(toks: seq<Text>) { forall i :: 0 <= i < |toks| ==> toks[i] != [] }

  /** The atoms of a class, each with the number of tokens left where it begins. A
      `\c` with nothing to take along is a backslash and a letter. */
  function Atoms(toks: seq<Text>): (atoms: seq<(nat, Atom)>)
    requires AreTokens(toks)
    ensures toks != [] ==> atoms != [] && atoms[0].0 == |toks|
    ensures toks == [] ==> atoms == []
  {
    if toks == [] then []
    else if toks[0] == CONTROL_TOKEN then
      if |toks| > 1 && IsControlLetter(toks[1]) then [(|toks|, One(toks[1][0] % 32))] + Atoms(toks[2..])
      else [(|toks|, One(BACKSLASH)), (|toks|, One(99))] + Atoms(toks[1..])
    else [(|toks|, AtomOf(toks[0]))] + Atoms(toks[1..])
  }

  function ItemOf(a: Atom): Item {
    match a
    case One(c) => Span(c, c)
    case SetOf(letter) => Escape(letter)
    case Dash => Span(HYPHEN, HYPHEN)
  }

  function Value(a: Atom): int { if a.One? then a.c else HYPHEN }

  /** The ranges and characters of a class: a hyphen between two atoms makes a range,
      but next to an escape for a set it is a hyphen. */
  function Items(atoms: seq<(nat, Atom)>): (items: seq<(nat, Item)>)
    ensures atoms != [] ==> items != [] && items[0].0 == atoms[0].0
  {
    if atoms == [] then []
    else if |atoms| > 2 && atoms[1].1.Dash? then
      if atoms[0].1.SetOf? || atoms[2].1.SetOf? then
        [(atoms[0].0, ItemOf(atoms[0].1)), (atoms[1].0, ItemOf(Dash)), (atoms[2].0, ItemOf(atoms[2].1))] + Items(atoms[3..])
      else [(atoms[0].0, Span(Value(atoms[0].1), Value(atoms[2].1)))] + Items(atoms[3..])
    else [(atoms[0].0, ItemOf(atoms[0].1))] + Items(atoms[1..])
  }

  function JsItems(toks: seq<Text>): seq<(nat, Item)>
    requires AreTokens(toks)
  {
    Items(Atoms(toks))
  }

  function ItemRanges(item: Item): seq<Range> {
    match item
    case Span(lo, hi) => [Range(lo, hi)]
    case Escape(letter) => EscapeRanges(letter)
    case Garbled => []
  }

  function AllRanges(items: seq<(nat, Item)>): seq<Range> {
    if items == [] then [] else ItemRanges(items[0].1) + AllRanges(items[1..])
  }

  /** What a class denotes in JavaScript, as ranges. */
  function JsRanges(toks: seq<Text>): seq<Range>
    requires AreTokens(toks)
  {
    AllRanges(JsItems(toks))
  }

  // ---- the folder's reading ----

  function CopiedItem(tok: Text): Item
    requires |tok| == 2
  {
    if tok[1] == 98 then Span(8, 8) else Escape(tok[1])
  }

  /** What the folder takes a class for, item by item, in the same form. */
  function CodeItems(toks: seq<Text>): (items: seq<(nat, Item)>)
    ensures toks != [] ==> items != [] && items[0].0 == |toks|
  {
    if toks == [] then []
    else if IsVerbatim(toks[0]) then [(|toks|, CopiedItem(toks[0]))] + CodeItems(toks[1..])
    else
      var lo := DecodeEscape(toks[0]);
      if |toks| > 2 && toks[1] == HYPHEN_TOKEN then
        var hi := DecodeEscape(toks[2]);
        [(|toks|, if lo.None? || hi.None? then Garbled else Span(lo.value, hi.value))] + CodeItems(toks[3..])
      else [(|toks|, if lo.None? then Garbled else Span(lo.value, lo.value))] + CodeItems(toks[1..])
  }

  // ---- where the readings agree ----

  /** A token that both readings take for the same, standing alone. */
  predicate Plain(tok: Text) {
    tok != B_TOKEN && tok != CONTROL_TOKEN && (IsVerbatim(tok) || DecodeEscape(tok).Some?)
  }

  /** An end of a range that both readings take for the same. */
  predicate PlainEnd(tok: Text) { !IsSet(tok) && tok != CONTROL_TOKEN && DecodeEscape(tok).Some? }

  /** What a caller can check of a class:
      no `\B` and no `\c`, and no `\x` or `\u` without digits;
      no escape for a set at the end of a range that begins with a character;
      no `\b` at the beginning of a range;
      and behind an escape for a set and a hyphen, nothing that begins a range. */
  predicate Faithful(toks: seq<Text>) {
    toks == [] ||
    (if |toks| > 2 && toks[1] == HYPHEN_TOKEN then
       (if IsVerbatim(toks[0]) then
          && Plain(toks[0]) && Plain(toks[2]) && (IsSet(toks[0]) || IsSet(toks[2]))
          && !(|toks| > 3 && toks[2] == HYPHEN_TOKEN)
          && !(|toks| > 4 && toks[3] == HYPHEN_TOKEN && !IsVerbatim(toks[2]))
        else Plain(toks[0]) && PlainEnd(toks[2]))
       && Faithful(toks[3..])
     else Plain(toks[0]) && Faithful(toks[1..]))
  }

  lemma AtomsHead(toks: seq<Text>)
    requires AreTokens(toks) && toks != [] && toks[0] != CONTROL_TOKEN
    ensures AreTokens(toks[1..]) && Atoms(toks) == [(|toks|, AtomOf(toks[0]))] + Atoms(toks[1..])
    ensures Atoms(toks)[1..] == Atoms(toks[1..])
  {}

  /** A control escape is never read alike. */
  lemma ControlDiffers(toks: seq<Text>)
    requires AreTokens(toks) && toks != [] && toks[0] == CONTROL_TOKEN
    ensures JsItems(toks)[0] != CodeItems(toks)[0]
  {
    assert DecodeEscape(CONTROL_TOKEN) == Some(99) && !IsVerbatim(CONTROL_TOKEN);
  }

  /** A token that begins no range. */
  lemma SingleStep(toks: seq<Text>)
    requires AreTokens(toks) && toks != [] && toks[0] != CONTROL_TOKEN && !(|toks| > 2 && toks[1] == HYPHEN_TOKEN)
    ensures AreTokens(toks[1..])
    ensures JsItems(toks) == [(|toks|, ItemOf(AtomOf(toks[0])))] + JsItems(toks[1..])
  {
    hide AtomOf, ItemOf;
    AtomsHead(toks);
    if |toks| > 1 { FirstAtom(toks[1..]); }
    if |toks| == 2 && toks[1] == HYPHEN_TOKEN { AtomsHead(toks[1..]); }
  }

  lemma FirstAtom(toks: seq<Text>)
    requires AreTokens(toks) && toks != []
    ensures Atoms(toks)[0].1.Dash? <==> toks[0] == HYPHEN_TOKEN
    ensures Atoms(toks)[0].1.SetOf? <==> IsSet(toks[0])
  {
    if toks[0] != CONTROL_TOKEN { AtomsHead(toks); }
  }

  /** Atoms of a range form. */
  lemma RangeAtoms(toks: seq<Text>)
    requires AreTokens(toks) && |toks| > 2 && toks[0] != CONTROL_TOKEN && toks[1] == HYPHEN_TOKEN
    ensures AreTokens(toks[2..]) && AreTokens(toks[3..])
    ensures Atoms(toks) == [(|toks|, AtomOf(toks[0])), (|toks| - 1, Dash)] + Atoms(toks[2..])
    ensures toks[2] != CONTROL_TOKEN ==> Atoms(toks[2..]) == [(|toks| - 2, AtomOf(toks[2]))] + Atoms(toks[3..])
  {
    AtomsHead(toks);
    AtomsHead(toks[1..]);
    assert toks[1..][1..] == toks[2..];
    if toks[2] != CONTROL_TOKEN {
      AtomsHead(toks[2..]);
      assert toks[2..][1..] == toks[3..];
    }
  }

  /** JavaScript's reading of a range form without `\c`. */
  lemma RangeStep(toks: seq<Text>)
    requires AreTokens(toks) && |toks| > 2 && toks[1] == HYPHEN_TOKEN
    requires toks[0] != CONTROL_TOKEN && toks[2] != CONTROL_TOKEN
    ensures AreTokens(toks[3..])
    ensures JsItems(toks) ==
              (if IsSet(toks[0]) || IsSet(toks[2]) then
                 [(|toks|, ItemOf(AtomOf(toks[0]))), (|toks| - 1, Span(HYPHEN, HYPHEN)), (|toks| - 2, ItemOf(AtomOf(toks[2])))]
               else [(|toks|, Span(JsValue(toks[0]), JsValue(toks[2])))])
              + JsItems(toks[3..])
  {
    hide JsValue, DecodeEscape;
    RangeAtoms(toks);
    var atoms := Atoms(toks);
    assert atoms[2..] == Atoms(toks[2..]) && atoms[3..] == Atoms(toks[3..]);
    HyphenValue();
  }

  lemma HyphenValue()
    ensures JsValue(HYPHEN_TOKEN) == HYPHEN && !IsSet(HYPHEN_TOKEN) && !IsVerbatim(HYPHEN_TOKEN)
    ensures DecodeEscape(HYPHEN_TOKEN) == Some(HYPHEN)
  {}

  /** What the folder takes a token for that begins no range. */
  function CodeAlone(tok: Text): Item {
    if IsVerbatim(tok) then CopiedItem(tok)
    else if DecodeEscape(tok).Some? then Span(DecodeEscape(tok).value, DecodeEscape(tok).value) else Garbled
  }

  lemma AloneAgrees(tok: Text)
    requires tok != [] && tok != CONTROL_TOKEN
    ensures CodeAlone(tok) == ItemOf(AtomOf(tok)) <==> Plain(tok)
  {
    if IsVerbatim(tok) && !IsSet(tok) {
      assert tok == [BACKSLASH, tok[1]];
      assert DecodeEscape(tok) == Some(if tok[1] == 98 then 8 else 66);
    }
  }

  /** The folder stops after a token it copies, and after one that begins no range. */
  lemma CodeStep(toks: seq<Text>)
    requires toks != [] && (IsVerbatim(toks[0]) || !(|toks| > 2 && toks[1] == HYPHEN_TOKEN))
    ensures CodeItems(toks) == [(|toks|, CodeAlone(toks[0]))] + CodeItems(toks[1..])
  {}

  lemma CodeRangeStep(toks: seq<Text>)
    requires |toks| > 2 && !IsVerbatim(toks[0]) && toks[1] == HYPHEN_TOKEN
    ensures CodeItems(toks) != [] && CodeItems(toks)[0].0 == |toks| && CodeItems(toks)[1..] == CodeItems(toks[3..])
    ensures |CodeItems(toks)| > 1 ==> toks[3..] != [] && CodeItems(toks)[1].0 == |toks| - 3
    ensures CodeItems(toks)[0].1.Span? && DecodeEscape(toks[2]).Some? ==> CodeItems(toks)[0].1.hi == DecodeEscape(toks[2]).value
  {}

  lemma ControlIsLetter()
    ensures DecodeEscape(CONTROL_TOKEN) == Some(99) && !IsVerbatim(CONTROL_TOKEN) && CONTROL_TOKEN != HYPHEN_TOKEN
    ensures CodeAlone(CONTROL_TOKEN) == Span(99, 99)
  {}

  /** The atom a `\c` begins is not the letter c. */
  lemma ControlAtom(toks: seq<Text>)
    requires AreTokens(toks) && toks != [] && toks[0] == CONTROL_TOKEN
    ensures Atoms(toks)[0].1.One? && Atoms(toks)[0].1.c != 99 && Atoms(toks)[0].0 == |toks|
    ensures |Atoms(toks)| > 1 ==> Atoms(toks)[1].0 <= |toks|
  {}

  /** A `\c` behind a hyphen is not read alike either. */
  lemma ControlBehindDiffers(toks: seq<Text>)
    requires AreTokens(toks) && |toks| > 2 && toks[0] != CONTROL_TOKEN
    requires toks[1] == HYPHEN_TOKEN && toks[2] == CONTROL_TOKEN
    ensures JsItems(toks) != CodeItems(toks)
  {
    hide AtomOf, Atoms, CodeItems, DecodeEscape, IsVerbatim, IsSet, CodeAlone;
    RangeAtoms(toks);
    HyphenValue();
    ControlIsLetter();
    ControlAtom(toks[2..]);
    FirstAtom(toks);
    var n, js, code, atoms := |toks|, JsItems(toks), CodeItems(toks), Atoms(toks);
    var tail := Atoms(toks[2..]);
    assert atoms[2] == tail[0] && |tail| > 1 ==> atoms[3] == tail[1];
    if IsVerbatim(toks[0]) {
      CodeStep(toks);
      CodeStep(toks[1..]);
      assert code[1].0 == n - 1;
      if IsSet(toks[0]) {
        CodeOfControl(toks[2..]);
        assert toks[1..][1..] == toks[2..];
        assert code[2] == CodeItems(toks[2..])[0];
        assert js[2] == (n - 2, ItemOf(tail[0].1));
      } else {
        assert js[1..] == Items(atoms[3..]);
        assert |js| > 1 ==> atoms[3..] != [] && js[1] == Items(atoms[3..])[0];
      }
    } else {
      SetIsVerbatim(toks[0]);
      CodeRangeStep(toks);
      assert js[0] == (n, Span(Value(atoms[0].1), tail[0].1.c));
    }
  }

  lemma SetIsVerbatim(tok: Text)
    ensures IsSet(tok) ==> IsVerbatim(tok)
  {}

  lemma CodeOfControl(toks: seq<Text>)
    requires toks != [] && toks[0] == CONTROL_TOKEN
    ensures CodeItems(toks)[0].1.Span? ==> CodeItems(toks)[0].1.lo == 99
  {
    assert DecodeEscape(CONTROL_TOKEN) == Some(99) && !IsVerbatim(CONTROL_TOKEN);
  }

  /** A range form of which the folder copies the first token, with an escape for a
      set at one end. */
  predicate SetForm(toks: seq<Text>) {
    && AreTokens(toks) && |toks| > 2 && toks[1] == HYPHEN_TOKEN
    && toks[0] != CONTROL_TOKEN && toks[2] != CONTROL_TOKEN && IsVerbatim(toks[0])
    && (IsSet(toks[0]) || IsSet(toks[2]))
  }

  lemma SetFormItems(toks: seq<Text>)
    requires SetForm(toks)
    ensures AreTokens(toks[3..])
    ensures JsItems(toks) == [(|toks|, ItemOf(AtomOf(toks[0]))), (|toks| - 1, Span(HYPHEN, HYPHEN)),
                              (|toks| - 2, ItemOf(AtomOf(toks[2])))] + JsItems(toks[3..])
    ensures CodeItems(toks) == [(|toks|, CodeAlone(toks[0]))] + CodeItems(toks[1..])
  {
    hide AtomOf, ItemOf, JsItems, CodeAlone;
    RangeStep(toks);
    CodeStep(toks);
  }

  lemma HyphensDiffer(toks: seq<Text>)
    requires SetForm(toks) && |toks| > 3 && toks[2] == HYPHEN_TOKEN
    ensures JsItems(toks) != CodeItems(toks)
  {
    hide AtomOf, ItemOf, JsItems, CodeItems, CodeAlone;
    SetFormItems(toks);
    HyphenValue();
    assert toks[1..][1] == HYPHEN_TOKEN;
    CodeRangeStep(toks[1..]);
    var js, code := JsItems(toks), CodeItems(toks);
    assert js[2].0 == |toks| - 2;
    assert |code| > 2 ==> code[2] == CodeItems(toks[1..])[1];
  }

  /** Neither a hyphen nor a range behind the first token: the folder goes on alone. */
  lemma SetFormGoesOn(toks: seq<Text>)
    requires SetForm(toks) && !(|toks| > 3 && toks[2] == HYPHEN_TOKEN)
    ensures CodeItems(toks) == [(|toks|, CodeAlone(toks[0])), (|toks| - 1, Span(HYPHEN, HYPHEN))] + CodeItems(toks[2..])
  {
    hide AtomOf, ItemOf, JsItems, CodeItems, CodeAlone;
    SetFormItems(toks);
    HyphenAlone();
    CodeStep(toks[1..]);
    assert toks[1..][1..] == toks[2..];
  }

  lemma RangeBehindDiffers(toks: seq<Text>)
    requires SetForm(toks) && toks[2] != HYPHEN_TOKEN
    requires |toks| > 4 && toks[3] == HYPHEN_TOKEN && !IsVerbatim(toks[2])
    ensures JsItems(toks) != CodeItems(toks)
  {
    hide AtomOf, ItemOf, JsItems, CodeItems, CodeAlone;
    SetFormItems(toks);
    SetFormGoesOn(toks);
    assert toks[2..][1] == HYPHEN_TOKEN;
    CodeRangeStep(toks[2..]);
    RestTag(toks[3..]);
    var js, code := JsItems(toks), CodeItems(toks);
    assert js[3].0 == |toks| - 3;
    assert |code| > 3 ==> code[3] == CodeItems(toks[2..])[1];
  }

  lemma SetFormAgrees(toks: seq<Text>)
    requires SetForm(toks) && !(|toks| > 3 && toks[2] == HYPHEN_TOKEN)
    requires !(|toks| > 4 && toks[3] == HYPHEN_TOKEN && !IsVerbatim(toks[2]))
    ensures AreTokens(toks[3..])
    ensures JsItems(toks) == CodeItems(toks) <==>
              Plain(toks[0]) && Plain(toks[2]) && JsItems(toks[3..]) == CodeItems(toks[3..])
  {
    hide AtomOf, ItemOf, JsItems, CodeItems, CodeAlone, Plain, DecodeEscape, IsSet, IsVerbatim;
    var n, rest, codeRest := |toks|, JsItems(toks[3..]), CodeItems(toks[3..]);
    SetFormItems(toks);
    SetFormGoesOn(toks);
    CodeStep(toks[2..]);
    assert toks[2..][1..] == toks[3..];
    AloneAgrees(toks[0]);
    AloneAgrees(toks[2]);
    var x, y, z := (n, CodeAlone(toks[0])), (n - 1, Span(HYPHEN, HYPHEN)), (n - 2, CodeAlone(toks[2]));
    ThirdInFront(x, y, z, codeRest);
    ThreeInFrontAgree((n, ItemOf(AtomOf(toks[0]))), y, (n - 2, ItemOf(AtomOf(toks[2]))), rest, x, y, z, codeRest);
  }

  lemma ThirdInFront<T>(x: T, y: T, z: T, rest: seq<T>)
    ensures [x, y] + ([z] + rest) == [x, y, z] + rest
  {}

  lemma ThreeInFrontAgree<T>(x: T, y: T, z: T, rest: seq<T>, x': T, y': T, z': T, rest': seq<T>)
    ensures [x, y, z] + rest == [x', y', z'] + rest' <==> x == x' && y == y' && z == z' && rest == rest'
  {
    var a, b := [x, y, z] + rest, [x', y', z'] + rest';
    assert a[0] == x && a[1] == y && a[2] == z && a[3..] == rest;
    assert b[0] == x' && b[1] == y' && b[2] == z' && b[3..] == rest';
  }

  lemma HyphenAlone()
    ensures CodeAlone(HYPHEN_TOKEN) == Span(HYPHEN, HYPHEN)
  {}

  lemma RestTag(toks: seq<Text>)
    requires AreTokens(toks) && toks != []
    ensures JsItems(toks) != [] && JsItems(toks)[0].0 == |toks|
  {}

  /** The other range forms. */
  lemma RangeFormAgrees(toks: seq<Text>)
    requires AreTokens(toks) && |toks| > 2 && toks[1] == HYPHEN_TOKEN
    requires toks[0] != CONTROL_TOKEN && toks[2] != CONTROL_TOKEN
    requires !(IsVerbatim(toks[0]) && (IsSet(toks[0]) || IsSet(toks[2])))
    requires AreTokens(toks[3..]) && (JsItems(toks[3..]) == CodeItems(toks[3..]) <==> Faithful(toks[3..]))
    ensures JsItems(toks) == CodeItems(toks) <==> Faithful(toks)
  {
    hide AtomOf, ItemOf, DecodeEscape, JsItems;
    RangeStep(toks);
    var n, js, code := |toks|, JsItems(toks), CodeItems(toks);
    var rest, codeRest := JsItems(toks[3..]), CodeItems(toks[3..]);
    if n > 3 { RestTag(toks[3..]); } else { NoRest(toks[3..]); }
    if IsVerbatim(toks[0]) {
      CodeStep(toks);
      assert code[1].0 == n - 1;
      assert |js| > 1 ==> js[1] == rest[0];
    } else if IsSet(toks[2]) {
      assert js[1].0 == n - 1;
      assert |code| > 1 ==> code[1] == codeRest[0];
    } else {
      assert js[1..] == rest && code[1..] == codeRest;
      assert B_TOKEN[1] == 66 && IsVerbatim(B_TOKEN);
      assert js == code <==> js[0] == code[0] && rest == codeRest;
    }
  }

  lemma NoRest(toks: seq<Text>)
    requires toks == []
    ensures JsItems(toks) == [] && CodeItems(toks) == []
  {}

  /** The folder reads a class as JavaScript does, item for item and each where the
      other has it, if and only if the class is faithful. */
  lemma {:induction false} ReadingsAgree(toks: seq<Text>)
    requires AreTokens(toks)
    ensures JsItems(toks) == CodeItems(toks) <==> Faithful(toks)
    decreases |toks|
  {
    hide AtomOf, ItemOf, DecodeEscape, JsItems, CodeItems, IsVerbatim, IsSet;
    if toks == [] {
      NoRest(toks);
    } else if toks[0] == CONTROL_TOKEN {
      ControlDiffers(toks);
    } else if |toks| > 2 && toks[1] == HYPHEN_TOKEN {
      assert AreTokens(toks[3..]);
      ReadingsAgree(toks[3..]);
      if toks[2] == CONTROL_TOKEN {
        ControlBehindDiffers(toks);
      } else if IsVerbatim(toks[0]) && (IsSet(toks[0]) || IsSet(toks[2])) {
        HyphenValue();
        if |toks| > 3 && toks[2] == HYPHEN_TOKEN {
          HyphensDiffer(toks);
        } else if |toks| > 4 && toks[3] == HYPHEN_TOKEN && !IsVerbatim(toks[2]) {
          RangeBehindDiffers(toks);
        } else {
          SetFormAgrees(toks);
        }
      } else {
        RangeFormAgrees(toks);
      }
    } else {
      SingleStep(toks);
      CodeStep(toks);
      AloneAgrees(toks[0]);
      ReadingsAgree(toks[1..]);
      assert JsItems(toks)[1..] == JsItems(toks[1..]) && CodeItems(toks)[1..] == CodeItems(toks[1..]);
    }
  }

  // ---- sets and case ----

  ghost predicate CaseClosed(rs: seq<Range>) { forall c :: InRanges(rs, c) ==> InRanges(rs, SwapCase(c)) }

  lemma InPair(a: seq<Range>, b: seq<Range>)
    ensures forall c :: InRanges(a + b, c) <==> InRanges(a, c) || InRanges(b, c)
  {
    forall c ensures InRanges(a + b, c) <==> InRanges(a, c) || InRanges(b, c) { InRangesAppend(a, b, c); }
  }

  predicate HasLetters(rs: seq<Range>) {
    exists i, j :: 0 <= i < |rs| && 0 <= j < |rs| && rs[i].lo <= 65 && rs[i].hi >= 90 && rs[j].lo <= 97 && rs[j].hi >= 122
  }

  predicate HasNoLetter(rs: seq<Range>) {
    forall i :: 0 <= i < |rs| ==> rs[i].hi < 65 || rs[i].lo > 122 || (rs[i].lo > 90 && rs[i].hi < 97)
  }

  lemma LettersClosed(rs: seq<Range>)
    requires HasLetters(rs) || HasNoLetter(rs)
    ensures CaseClosed(rs)
  {
    forall c | InRanges(rs, c) && SwapCase(c) != c ensures InRanges(rs, SwapCase(c)) {
      var r :| r in rs && r.lo <= c <= r.hi;
      var k :| 0 <= k < |rs| && rs[k] == r;
      var i, j :| 0 <= i < |rs| && 0 <= j < |rs| && rs[i].lo <= 65 && rs[i].hi >= 90 && rs[j].lo <= 97 && rs[j].hi >= 122;
      assert rs[i] in rs && rs[j] in rs;
    }
  }

  /** A set holds all letters or none; only `\B` is a letter. */
  lemma EscapesClosed(letter: int)
    requires letter in {98, 100, 115, 119, 68, 83, 87}
    ensures CaseClosed(EscapeRanges(letter))
  {
    var rs := EscapeRanges(letter);
    if letter == 68 { assert rs[1].lo <= 65 && rs[1].hi >= 122; }
    if letter == 83 { assert rs[2].lo <= 65 && rs[2].hi >= 122; }
    if letter == 119 { assert rs[1].lo <= 65 && rs[1].hi >= 90 && rs[3].lo <= 97 && rs[3].hi >= 122; }
    LettersClosed(rs);
  }

  lemma EscapesOrdered(letter: int)
    ensures AllOrdered(EscapeRanges(letter))
  {}

  /** What the copied escapes denote. */
  function CopiedRanges(v: seq<Text>): seq<Range>
    requires forall i :: 0 <= i < |v| ==> IsVerbatim(v[i])
  {
    if v == [] then [] else
      assert IsVerbatim(v[0]);
      EscapeRanges(v[0][1]) + CopiedRanges(v[1..])
  }

  lemma {:induction false} CopiedAreOrdered(v: seq<Text>)
    requires forall i :: 0 <= i < |v| ==> IsVerbatim(v[i])
    ensures AllOrdered(CopiedRanges(v))
    ensures B_TOKEN !in v ==> CaseClosed(CopiedRanges(v))
  {
    if v != [] {
      CopiedAreOrdered(v[1..]);
      InPair(EscapeRanges(v[0][1]), CopiedRanges(v[1..]));
      assert IsVerbatim(v[0]);
      EscapesOrdered(v[0][1]);
      if v[0][1] != 66 { EscapesClosed(v[0][1]); } else { assert v[0] == B_TOKEN; }
    }
  }

  // ---- what the folder's items say ----

  predicate Ranged(items: seq<(nat, Item)>) {
    forall i :: 0 <= i < |items| && items[i].1.Span? ==> items[i].1.lo <= items[i].1.hi
  }

  /** An item of JavaScript's reading. */
  predicate Proper(item: Item) { item.Span? || (item.Escape? && item.letter in {100, 115, 119, 68, 83, 87}) }

  predicate AllProper(items: seq<(nat, Item)>) { forall i :: 0 <= i < |items| ==> Proper(items[i].1) }

  lemma {:induction false} AtomsAreProper(toks: seq<Text>)
    requires AreTokens(toks)
    ensures forall i :: 0 <= i < |Atoms(toks)| ==> Proper(ItemOf(Atoms(toks)[i].1))
    decreases |toks|
  {
    hide DecodeEscape;
    if toks != [] {
      AtomsAreProper(toks[1..]);
      if |toks| > 1 { AtomsAreProper(toks[2..]); }
    }
  }

  lemma {:induction false} ItemsAreProper(atoms: seq<(nat, Atom)>)
    requires forall i :: 0 <= i < |atoms| ==> Proper(ItemOf(atoms[i].1))
    ensures AllProper(Items(atoms))
    decreases |atoms|
  {
    if atoms != [] {
      ItemsAreProper(atoms[1..]);
      if |atoms| > 2 { ItemsAreProper(atoms[3..]); }
    }
  }

  /** The folder's parse splits its items into the escapes it copies and the ranges. */
  ghost predicate Splits(items: seq<(nat, Item)>, parsed: Option<(seq<Text>, seq<Range>)>) {
    && parsed.Some?
    && (forall i :: 0 <= i < |parsed.value.0| ==> IsVerbatim(parsed.value.0[i]))
    && B_TOKEN !in parsed.value.0
    && (Ranged(items) ==> AllOrdered(parsed.value.1))
    && forall c :: InRanges(AllRanges(items), c) <==>
                     InRanges(CopiedRanges(parsed.value.0), c) || InRanges(parsed.value.1, c)
  }

  lemma SplitsCopied(tok: Text, n: nat, items: seq<(nat, Item)>, parsed: Option<(seq<Text>, seq<Range>)>)
    requires Splits(items, parsed) && IsVerbatim(tok) && tok != B_TOKEN
    ensures Splits([(n, CopiedItem(tok))] + items, Prepend([tok], [], parsed))
  {
    var all := [(n, CopiedItem(tok))] + items;
    var v, rs := parsed.value.0, parsed.value.1;
    assert all[1..] == items && all[1..|all|] == items && ([tok] + v)[1..] == v && [] + rs == rs;
    assert Ranged(all) ==> Ranged(items) by {
      forall i | 0 <= i < |items| ensures items[i] == all[i + 1] {}
    }
    assert AllRanges(all) == EscapeRanges(tok[1]) + AllRanges(items);
    InPair(EscapeRanges(tok[1]), AllRanges(items));
    InPair(EscapeRanges(tok[1]), CopiedRanges(v));
  }

  lemma SplitsSpan(lo: int, hi: int, n: nat, items: seq<(nat, Item)>, parsed: Option<(seq<Text>, seq<Range>)>)
    requires Splits(items, parsed)
    ensures Splits([(n, Span(lo, hi))] + items, Prepend([], [Range(lo, hi)], parsed))
  {
    var all := [(n, Span(lo, hi))] + items;
    var v, rs := parsed.value.0, parsed.value.1;
    assert all[1..] == items && [] + v == v;
    if Ranged(all) {
      assert lo <= hi by { assert all[0].1.Span?; }
      assert Ranged(items) by {
        forall i | 0 <= i < |items| ensures items[i] == all[i + 1] {}
      }
    }
    InPair([Range(lo, hi)], AllRanges(items));
    InPair([Range(lo, hi)], rs);
  }

  lemma {:induction false} ItemsParsed(toks: seq<Text>)
    requires AllProper(CodeItems(toks))
    ensures Splits(CodeItems(toks), ParseItems(toks))
    decreases |toks|
  {
    hide DecodeEscape, Splits, IsVerbatim;
    if toks == [] {
      NothingSplits();
    } else {
      var items := CodeItems(toks);
      assert Proper(items[0].1);
      if IsVerbatim(toks[0]) {
        assert items[1..] == CodeItems(toks[1..]);
        RestProper(items);
        ItemsParsed(toks[1..]);
        CopiedShape(toks[0]);
        assert items == [(|toks|, CopiedItem(toks[0]))] + CodeItems(toks[1..]);
        SplitsCopied(toks[0], |toks|, CodeItems(toks[1..]), ParseItems(toks[1..]));
      } else {
        var k := if |toks| > 2 && toks[1] == HYPHEN_TOKEN then 3 else 1;
        assert items[1..] == CodeItems(toks[k..]);
        RestProper(items);
        ItemsParsed(toks[k..]);
        SplitsSpan(items[0].1.lo, items[0].1.hi, |toks|, CodeItems(toks[k..]), ParseItems(toks[k..]));
      }
    }
  }

  lemma CopiedShape(tok: Text)
    requires IsVerbatim(tok)
    ensures |tok| == 2 && (Proper(CopiedItem(tok)) ==> tok != B_TOKEN)
  {}

  lemma NothingSplits()
    ensures Splits([], Some(([], [])))
  {}

  lemma RestProper(items: seq<(nat, Item)>)
    requires AllProper(items) && items != []
    ensures AllProper(items[1..])
  {}
}
