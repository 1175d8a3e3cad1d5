/** The member filter of a template page: which members of a list are shown, and
    whether the list is. Access levels, hidden owners and the words typed all have
    a say in it. */
module MemberFilter {
  import opened Prelude
  import opened Texts
  import opened MiniRegex
  import opened QueryCompilers

  /** The `visbl` attribute of a member. */
  datatype Access = Public | Protected | Private | Unmarked

  /** The member's attributes that the filter reads; `comment` is its `mbrText`. */
  datatype Member = Member(access: Access, name: Text, comment: Text)

  /** The page's settings; `test` is the compiled query. */
  datatype Settings = Settings(
    publicShown: bool, protectedShown: bool, privateShown: bool,
    hideInherited: bool, hiddenClasses: seq<Text>, hiddenImplicits: seq<Text>,
    query: Text, test: Text -> bool)

  const HASH: CodeUnit := 35
  const DOT: CodeUnit := 46

  // ---- a member's owner ----

  /** `indexOf` from `i` on. */
  function IndexOf(t: Text, c: CodeUnit, i: nat): (k: int)
    requires i <= |t|
    ensures k == -1 || i <= k < |t|
    ensures k == -1 ==> forall j :: i <= j < |t| ==> t[j] != c
    ensures k != -1 ==> t[k] == c && forall j :: i <= j < k ==> t[j] != c
    decreases |t| - i
  {
    if i == |t| then -1 else if t[i] == c then i else IndexOf(t, c, i + 1)
  }

  /** `lastIndexOf`, looking at the first `n` characters. */
  function LastIndexOf(t: Text, c: CodeUnit, n: nat): (k: int)
    requires n <= |t|
    ensures -1 <= k < n
    ensures k == -1 ==> forall j :: 0 <= j < n ==> t[j] != c
    ensures k != -1 ==> t[k] == c && forall j :: k < j < n ==> t[j] != c
  {
    if n == 0 then -1 else if t[n - 1] == c then n - 1 else LastIndexOf(t, c, n - 1)
  }

  /** `slice(0, end)`: a negative end counts from the back. */
  function SliceTo(t: Text, end: int): Text
    requires end <= |t|
  {
    if end >= 0 then t[..end] else if |t| + end >= 0 then t[..|t| + end] else []
  }

  function Owner(name: Text): Text {
    var hash := IndexOf(name, HASH, 0);
    SliceTo(name, if hash < 0 then LastIndexOf(name, DOT, |name|) else hash)
  }

  /** The owner is what stands before the first `#`, or else before the last dot. A
      name with neither loses its last character, for -1 is taken from the back. */
  lemma OwnerMeans(name: Text, owner: Text, rest: Text)
    ensures HASH !in owner && name == owner + [HASH] + rest ==> Owner(name) == owner
    ensures HASH !in name && DOT !in rest && name == owner + [DOT] + rest ==> Owner(name) == owner
    ensures HASH !in name && DOT !in name ==>
              Owner(name) == if name == [] then [] else name[..|name| - 1]
  {
    if HASH !in owner && name == owner + [HASH] + rest {
      assert name[|owner|] == HASH;
    }
    if HASH !in name && DOT !in rest && name == owner + [DOT] + rest {
      assert name[|owner|] == DOT;
    }
  }

  // ---- which members are shown ----

  predicate AccessShown(s: Settings, access: Access) {
    match access
    case Public => s.publicShown
    case Protected => s.protectedShown
    case Private => s.privateShown
    case Unmarked => true
  }

  predicate Shown(s: Settings, m: Member) {
    && AccessShown(s, m.access)
    && (s.hideInherited ==> Owner(m.name) !in s.hiddenClasses && Owner(m.name) !in s.hiddenImplicits)
    && (s.query != [] ==> s.test(m.name) || s.test(m.comment))
  }

  /** A list item: its member does not change, whether it is shown does. */
  class Item {
    const member: Member
    var shown: bool

    constructor (member: Member, shown: bool)
      ensures this.member == member && this.shown == shown
    {
      this.member, this.shown := member, shown;
    }
  }

  /** The loop that looks for the owner among the hidden ones. */
  method Hides(hidden: seq<Text>, owner: Text) returns (hides: bool)
    ensures hides <==> owner in hidden
  {
    for i := 0 to |hidden|
      invariant owner !in hidden[..i]
    {
      if hidden[i] == owner {
        return true;
      }
      assert hidden[..i+1] == hidden[..i] + [hidden[i]];
    }
    assert hidden[..|hidden|] == hidden;
    hides := false;
  }

  /** The callback for one item. It says whether the item is left showing. */
  method FilterItem(s: Settings, item: Item) returns (visible: bool)
    modifies item
    ensures item.shown == visible == Shown(s, item.member)
  {
    var m := item.member;
    if !s.publicShown && m.access == Public {
      item.shown := false;
      return false;
    }
    if !s.protectedShown && m.access == Protected {
      item.shown := false;
      return false;
    }
    if !s.privateShown && m.access == Private {
      item.shown := false;
      return false;
    }
    if s.hideInherited {
      var hash := IndexOf(m.name, HASH, 0);
      var owner := SliceTo(m.name, if hash < 0 then LastIndexOf(m.name, DOT, |m.name|) else hash);
      var hides := Hides(s.hiddenClasses, owner);
      if hides {
        item.shown := false;
        return false;
      }
      hides := Hides(s.hiddenImplicits, owner);
      if hides {
        item.shown := false;
        return false;
      }
    }
    if s.query != [] && !(s.test(m.name) || s.test(m.comment)) {
      item.shown := false;
      return false;
    }
    item.shown := true;
    visible := true;
  }

  /** A list of members: every item is shown just if its member passes, and the list
      just if some item is. */
  class MemberList {
    const items: seq<Item>
    var shown: bool

    constructor (items: seq<Item>)
      ensures this.items == items
    {
      this.items := items;
      shown := true;
    }

    method Filter(s: Settings)
      modifies this, items
      ensures forall i :: 0 <= i < |items| ==> items[i].shown == Shown(s, items[i].member)
      ensures shown <==> exists i :: 0 <= i < |items| && items[i].shown
    {
      var membersVisible := false;
      for k := 0 to |items|
        invariant forall i :: 0 <= i < k ==> items[i].shown == Shown(s, items[i].member)
        invariant membersVisible <==> exists i :: 0 <= i < k && Shown(s, items[i].member)
      {
        var visible := FilterItem(s, items[k]);
        if visible {
          membersVisible := true;
        }
      }
      shown := membersVisible;
    }
  }

  // ---- the filter and what was typed ----

  /** The settings carry the compiled form of what was typed. */
  ghost predicate Compiles(s: Settings, canon: CodeUnit -> CodeUnit, lower: Text -> Text, input: Text) {
    && s.query == FilterPattern(FilterQuery(lower, input))
    && Parse(s.query).Some?
    && forall t :: s.test(t) <==> Test(canon, Parse(s.query).value, t)
  }

  /** The tests a member has to pass apart from what was typed. */
  predicate Eligible(s: Settings, m: Member) {
    && (m.access == Public ==> s.publicShown)
    && (m.access == Protected ==> s.protectedShown)
    && (m.access == Private ==> s.privateShown)
    && (s.hideInherited ==> Owner(m.name) !in s.hiddenClasses && Owner(m.name) !in s.hiddenImplicits)
  }

  /** The member is shown just if it is eligible and has some term in its name or comment. */
  ghost predicate ShownFor(s: Settings, canon: CodeUnit -> CodeUnit, terms: seq<Text>, m: Member) {
    Shown(s, m) <==>
      Eligible(s, m) && (SomeTermWithin(canon, terms, m.name) || SomeTermWithin(canon, terms, m.comment))
  }

  /** A member is shown just if its access level is, its owner is not hidden, and some
      term of what was typed, in lower case, is in its name or its comment, whatever
      the case. An input of white space only leaves all of them. */
  lemma ShownMeans(s: Settings, canon: CodeUnit -> CodeUnit, lower: Text -> Text, input: Text, m: Member)
    requires Compiles(s, canon, lower, input)
    ensures ShownFor(s, canon, Terms(FilterQuery(lower, input)), m)
  {
    hide Owner, Test, Trim, SomeTermWithin, FilterPattern;
    FilterMatches(canon, lower, input, m.name);
    FilterMatches(canon, lower, input, m.comment);
    if s.query == [] { EmptyMatches(canon, m.name); }
  }

  /** Every eligible member with this text for a name and a comment is wrongly shown or
      wrongly hidden. */
  ghost predicate WrongWith(s: Settings, canon: CodeUnit -> CodeUnit, terms: seq<Text>, t: Text) {
    forall m: Member :: m.name == t && m.comment == t && Eligible(s, m) ==> !ShownFor(s, canon, terms, m)
  }

  lemma UnmarkedIsEligible(s: Settings, m: Member)
    requires m.access == Unmarked && !s.hideInherited
    ensures Eligible(s, m)
  {}

  /** So it is for the terms as typed if and only if lower-casing does the terms no harm:
      otherwise there is a text with which every eligible member is treated wrongly. */
  lemma ShownMeansTyped(s: Settings, canon: CodeUnit -> CodeUnit, lower: Text -> Text, input: Text)
    requires Compiles(s, canon, lower, input)
    ensures LowersWell(canon, lower, input) ==> forall m :: ShownFor(s, canon, Terms(Trim(input)), m)
    ensures !LowersWell(canon, lower, input) ==>
              exists t :: WrongWith(s, canon, Terms(Trim(input)), t)
    ensures !s.hideInherited ==>
              ((forall m :: ShownFor(s, canon, Terms(Trim(input)), m)) <==> LowersWell(canon, lower, input))
  {
    hide Eligible, LowersWell, Shown, SomeTermWithin, Parse, FilterPattern, Test, Compiles;
    var typed, lowered := Terms(Trim(input)), Terms(FilterQuery(lower, input));
    FilterMatchesTyped(canon, lower, input);
    forall t ensures Test(canon, Parse(FilterPattern(FilterQuery(lower, input))).value, t) <==> SomeTermWithin(canon, lowered, t) {
      FilterMatches(canon, lower, input, t);
    }
    if LowersWell(canon, lower, input) {
      forall m ensures ShownFor(s, canon, typed, m) { ShownMeans(s, canon, lower, input, m); }
    } else {
      var t :| SomeTermWithin(canon, lowered, t) != SomeTermWithin(canon, typed, t);
      forall m: Member | m.name == t && m.comment == t && Eligible(s, m) ensures !ShownFor(s, canon, typed, m) {
        ShownMeans(s, canon, lower, input, m);
      }
      assert WrongWith(s, canon, typed, t);
      if !s.hideInherited { UnmarkedIsEligible(s, Member(Unmarked, t, t)); }
    }
  }

  lemma EmptyMatches(canon: CodeUnit -> CodeUnit, t: Text)
    ensures Parse([]) == Some([[]]) && Test(canon, [[]], t)
  {
    assert MatchesFrom(canon, [[]][0], t, 0);
  }
}
