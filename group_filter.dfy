/** The group filter of the group list component: three independent criteria, each
    of which may be switched off, narrow the full list of groups to the visible one. */
module GroupFilter {
  import opened Groups
  import opened Sequences

  /** The three filter criteria as the component keeps them: free strings, where the
      empty string switches a dimension off. */
  datatype Criteria = Criteria(color: string, privacy: string, entry: string)

  /** The criteria a fresh component starts with and a reset returns to. */
  const NO_FILTER: Criteria := Criteria("", "", "")

  /** The group lists at least one friend; an absent list counts as empty. */
  predicate HasFriends(g: Group)
  {
    g.friends.Some? && |g.friends.value| > 0
  }

  /** Colour dimension: exact comparison, off when the colour is empty. */
  predicate ColorMatches(g: Group, color: string)
  {
    color == "" || g.avatar_color == color
  }

  /** Privacy dimension: "open" asks for an open group, any other non-empty string
      for a closed one; off when empty. */
  predicate PrivacyMatches(g: Group, privacy: string)
  {
    privacy == "" || (if privacy == "open" then !g.closed else g.closed)
  }

  /** Entry dimension: only "withFriends" and "withoutFriends" constrain anything;
      every other value, the menu's "all" and the empty string among them, lets every
      group through. */
  predicate EntryMatches(g: Group, entry: string)
  {
    if entry == "withFriends" then HasFriends(g)
    else if entry == "withoutFriends" then !HasFriends(g)
    else true
  }

  /** The reference definition of a visible group: it satisfies all three dimensions. */
  predicate Keep(g: Group, c: Criteria)
  {
    ColorMatches(g, c.color) && PrivacyMatches(g, c.privacy) && EntryMatches(g, c.entry)
  }

  function KeepBy(c: Criteria): Group -> bool
  {
    g => Keep(g, c)
  }

  /** The visible list: the groups that satisfy every criterion, in list order. */
  function Filter(groups: seq<Group>, c: Criteria): seq<Group>
  {
    Select(groups, KeepBy(c))
  }

  /** No dimension constrains anything. */
  predicate Inactive(c: Criteria)
  {
    c.color == "" && c.privacy == "" && c.entry != "withFriends" && c.entry != "withoutFriends"
  }

  /** The computation of `filterGroups`: start from the full list and run, one after
      the other, the colour pass, the privacy pass and the entry pass, each only when
      its criterion is active. The result is the visible list. */
  method FilterPasses(groups: seq<Group>, color: string, privacy: string, entry: string)
    returns (filtered: seq<Group>)
    ensures filtered == Filter(groups, Criteria(color, privacy, entry))
  {
    ghost var c := Criteria(color, privacy, entry);
    ghost var afterColor: Group -> bool := g => ColorMatches(g, color);
    ghost var afterPrivacy: Group -> bool := g => ColorMatches(g, color) && PrivacyMatches(g, privacy);

    filtered := groups;
    if color != "" {
      var sameColor: Group -> bool := (g: Group) => g.avatar_color == color;
      filtered := Select(filtered, sameColor);
      SelectExt(groups, sameColor, afterColor);
    } else {
      SelectAll(groups, afterColor);
    }
    assert filtered == Select(groups, afterColor);

    if privacy != "" {
      var samePrivacy: Group -> bool := (g: Group) => if privacy == "open" then !g.closed else g.closed;
      filtered := Select(filtered, samePrivacy);
      SelectFusion(groups, afterColor, samePrivacy, afterPrivacy);
    } else {
      SelectExt(groups, afterColor, afterPrivacy);
    }
    assert filtered == Select(groups, afterPrivacy);

    if entry == "withFriends" {
      filtered := Select(filtered, HasFriends);
      SelectFusion(groups, afterPrivacy, HasFriends, KeepBy(c));
    } else if entry == "withoutFriends" {
      var lacksFriends: Group -> bool := g => !HasFriends(g);
      filtered := Select(filtered, lacksFriends);
      SelectFusion(groups, afterPrivacy, lacksFriends, KeepBy(c));
    } else {
      SelectExt(groups, afterPrivacy, KeepBy(c));
    }
  }

  /** The visible list is an order-preserving subsequence of the full list, made of
      the full list's own records, and position i is kept iff its group satisfies
      every criterion. */
  lemma FilterIsOrderedSubsequence(groups: seq<Group>, c: Criteria)
    ensures OrderedEmbedding(Filter(groups, c), groups, Positions(groups, KeepBy(c)))
    ensures forall i :: i in Positions(groups, KeepBy(c)) <==> 0 <= i < |groups| && Keep(groups[i], c)
  {
    SelectEmbeds(groups, KeepBy(c));
  }

  /** A group is visible iff it is in the full list and passes every active criterion. */
  lemma FilterMembership(groups: seq<Group>, c: Criteria, g: Group)
    ensures g in Filter(groups, c) <==>
              && g in groups
              && (c.color == "" || g.avatar_color == c.color)
              && (c.privacy == "" || (c.privacy == "open" && !g.closed) || (c.privacy != "open" && g.closed))
              && (c.entry == "withFriends" ==> HasFriends(g))
              && (c.entry == "withoutFriends" ==> !HasFriends(g))
  {
    SelectMembership(groups, KeepBy(c), g);
  }

  /** With every criterion switched off the full list is visible. */
  lemma FilterInactive(groups: seq<Group>, c: Criteria)
    requires Inactive(c)
    ensures Filter(groups, c) == groups
  {
    SelectAll(groups, KeepBy(c));
  }

  /** A group that some active criterion rejects. */
  function Rejected(c: Criteria): (g: Group)
    requires !Inactive(c)
    ensures !Keep(g, c)
  {
    if c.color != "" then Group(0, "", c.color + "?", false, 0, None)
    else if c.privacy == "open" then Group(0, "", "", true, 0, None)
    else if c.privacy != "" then Group(0, "", "", false, 0, None)
    else if c.entry == "withFriends" then Group(0, "", "", false, 0, None)
    else Group(0, "", "", false, 0, Some([Friend("", "")]))
  }

  /** Switching every criterion off is the only way to see every list in full. */
  lemma FilterKeepsAllIffInactive(c: Criteria)
    ensures (forall groups :: Filter(groups, c) == groups) <==> Inactive(c)
  {
    if Inactive(c) {
      forall groups ensures Filter(groups, c) == groups {
        FilterInactive(groups, c);
      }
    } else {
      var g := Rejected(c);
      SelectMembership([g], KeepBy(c), g);
      assert Filter([g], c) != [g];
    }
  }

  /** Filtering the visible list again with the same criteria changes nothing. */
  lemma FilterIdempotent(groups: seq<Group>, c: Criteria)
    ensures Filter(Filter(groups, c), c) == Filter(groups, c)
  {
    SelectFusion(groups, KeepBy(c), KeepBy(c), KeepBy(c));
  }

  /** With "open" every visible group is open; with any other non-empty privacy
      string every visible group is closed. With a colour, every visible group has it. */
  lemma FilterColorAndPrivacy(groups: seq<Group>, c: Criteria)
    ensures c.color != "" ==> forall g :: g in Filter(groups, c) ==> g.avatar_color == c.color
    ensures c.privacy == "open" ==> forall g :: g in Filter(groups, c) ==> !g.closed
    ensures c.privacy != "" && c.privacy != "open" ==> forall g :: g in Filter(groups, c) ==> g.closed
  {
    // Follows from Select's own postcondition: every kept element satisfies Keep.
  }

  /** "withFriends" and "withoutFriends" each keep the friend-holding, respectively
      friendless, part of what colour and privacy let through, and the two results
      split that list between them. */
  lemma EntryPartition(groups: seq<Group>, c: Criteria)
    ensures var base := Filter(groups, c.(entry := ""));
            var with := Filter(groups, c.(entry := "withFriends"));
            var without := Filter(groups, c.(entry := "withoutFriends"));
            && (forall g :: g in with ==> HasFriends(g))
            && (forall g :: g in without ==> !HasFriends(g))
            && with == Select(base, HasFriends)
            && multiset(with) + multiset(without) == multiset(base)
            && |with| + |without| == |base|
  {
    var cb, cw, co := c.(entry := ""), c.(entry := "withFriends"), c.(entry := "withoutFriends");
    var lacksFriends: Group -> bool := g => !HasFriends(g);
    SelectFusion(groups, KeepBy(cb), HasFriends, KeepBy(cw));
    SelectFusion(groups, KeepBy(cb), lacksFriends, KeepBy(co));
    SelectPartition(Filter(groups, cb), HasFriends, lacksFriends);
    forall g | g in Filter(groups, cw) ensures HasFriends(g) {
      SelectMembership(groups, KeepBy(cw), g);
    }
    forall g | g in Filter(groups, co) ensures !HasFriends(g) {
      SelectMembership(groups, KeepBy(co), g);
    }
  }

  /** `tight` asks at least what `loose` asks: each dimension of `loose` is either off
      or the same in `tight`. */
  predicate Tightens(tight: Criteria, loose: Criteria)
  {
    && (loose.color == "" || tight.color == loose.color)
    && (loose.privacy == "" || tight.privacy == loose.privacy)
    && (loose.entry == tight.entry || (loose.entry != "withFriends" && loose.entry != "withoutFriends"))
  }

  /** Setting a criterion that was off never shows more groups: the tighter result is
      the looser result filtered again. */
  lemma FilterTightening(groups: seq<Group>, tight: Criteria, loose: Criteria)
    requires Tightens(tight, loose)
    ensures Filter(groups, tight) == Filter(Filter(groups, loose), tight)
    ensures |Filter(groups, tight)| <= |Filter(groups, loose)|
  {
    SelectFusion(groups, KeepBy(loose), KeepBy(tight), KeepBy(tight));
  }

  /** One of the three dimensions, as a pass of its own. */
  datatype Dimension = ColorDim | PrivacyDim | EntryDim

  predicate DimMatches(d: Dimension, g: Group, c: Criteria)
  {
    match d
    case ColorDim => ColorMatches(g, c.color)
    case PrivacyDim => PrivacyMatches(g, c.privacy)
    case EntryDim => EntryMatches(g, c.entry)
  }

  function DimPass(d: Dimension, c: Criteria): Group -> bool
  {
    g => DimMatches(d, g, c)
  }

  /** Runs one pass per entry of `order`, left to right. */
  function RunPasses(groups: seq<Group>, c: Criteria, order: seq<Dimension>): seq<Group>
    decreases |order|
  {
    if order == [] then groups else RunPasses(Select(groups, DimPass(order[0], c)), c, order[1..])
  }

  predicate MatchesAll(order: seq<Dimension>, g: Group, c: Criteria)
  {
    forall d :: d in order ==> DimMatches(d, g, c)
  }

  lemma {:induction false} RunPassesSelect(groups: seq<Group>, c: Criteria, order: seq<Dimension>, sofar: Group -> bool)
    ensures RunPasses(Select(groups, sofar), c, order) == Select(groups, g => sofar(g) && MatchesAll(order, g, c))
    decreases |order|
  {
    if order == [] {
      SelectExt(groups, sofar, g => sofar(g) && MatchesAll(order, g, c));
    } else {
      var next: Group -> bool := g => sofar(g) && DimMatches(order[0], g, c);
      SelectFusion(groups, sofar, DimPass(order[0], c), next);
      RunPassesSelect(groups, c, order[1..], next);
      forall g ensures (next(g) && MatchesAll(order[1..], g, c)) == (sofar(g) && MatchesAll(order, g, c)) {
        assert forall d :: d in order <==> d == order[0] || d in order[1..];
      }
      SelectExt(groups, g => next(g) && MatchesAll(order[1..], g, c), g => sofar(g) && MatchesAll(order, g, c));
    }
  }

  /** The passes may run in any order, and a pass may even run twice: as long as each
      dimension runs at least once, the result is the visible list. */
  lemma PassesInAnyOrder(groups: seq<Group>, c: Criteria, order: seq<Dimension>)
    requires ColorDim in order && PrivacyDim in order && EntryDim in order
    ensures RunPasses(groups, c, order) == Filter(groups, c)
  {
    var everything: Group -> bool := g => true;
    SelectAll(groups, everything);
    RunPassesSelect(groups, c, order, everything);
    SelectExt(groups, g => everything(g) && MatchesAll(order, g, c), KeepBy(c));
  }
}
