/** The state of the group list component: the full list fetched once, the visible
    list derived from it, and the three criteria the user picks. React's state
    setters are treated as synchronous assignments. */
module GroupListComponent {
  import opened Groups
  import opened GroupFilter

  class GroupList {
    var groups: seq<Group>
    var filteredGroups: seq<Group>
    var colorFilter: string
    var privacyFilter: string
    var entryFilter: string

    /** The criteria currently selected. */
    function Current(): Criteria
      reads this
    {
      Criteria(colorFilter, privacyFilter, entryFilter)
    }

    /** The visible list is what the current criteria select from the full list. */
    predicate Consistent()
      reads this
    {
      filteredGroups == Filter(groups, Current())
    }

    /** At mount both lists are empty and no criterion is set. */
    constructor ()
      ensures groups == [] && filteredGroups == []
      ensures Current() == NO_FILTER
      ensures Consistent()
    {
      groups, filteredGroups := [], [];
      colorFilter, privacyFilter, entryFilter := "", "", "";
    }

    /** A successful fetch replaces both lists with the fetched one. The criteria are
        not re-applied, so the state stays consistent exactly when they keep every
        fetched group. That holds when no criterion is set, but a criterion picked
        during the fetch delay survives the load while the full list is shown. */
    method FetchAndSetGroups(groupList: seq<Group>)
      modifies this
      ensures groups == groupList && filteredGroups == groupList
      ensures Current() == old(Current())
      ensures Consistent() <==> Filter(groupList, Current()) == groupList
      ensures Inactive(Current()) ==> Consistent()
    {
      groups := groupList;
      filteredGroups := groupList;
      if Inactive(Current()) {
        FilterInactive(groupList, Current());
      }
    }

    /** The load with the current criteria re-applied to the fetched list, so that a
        criterion picked during the fetch delay is honoured. */
    method FetchAndSetGroupsRefiltered(groupList: seq<Group>)
      modifies this
      ensures groups == groupList
      ensures filteredGroups == Filter(groupList, Current())
      ensures Current() == old(Current())
      ensures Consistent()
    {
      groups := groupList;
      FilterGroups(colorFilter, privacyFilter, entryFilter);
    }

    /** Recomputes the visible list from the full list under the given criteria. */
    method FilterGroups(color: string, privacy: string, entry: string)
      modifies this`filteredGroups
      ensures filteredGroups == Filter(groups, Criteria(color, privacy, entry))
    {
      var filtered := FilterPasses(groups, color, privacy, entry);
      filteredGroups := filtered;
    }

    /** The user picks a colour: only the colour criterion and the visible list change. */
    method HandleColorFilterChange(value: string)
      modifies this
      ensures colorFilter == value
      ensures privacyFilter == old(privacyFilter) && entryFilter == old(entryFilter)
      ensures groups == old(groups)
      ensures filteredGroups == Filter(groups, Criteria(value, old(privacyFilter), old(entryFilter)))
      ensures Consistent()
    {
      colorFilter := value;
      FilterGroups(value, privacyFilter, entryFilter);
    }

    /** The user picks a privacy value: only that criterion and the visible list change. */
    method HandlePrivacyFilterChange(value: string)
      modifies this
      ensures privacyFilter == value
      ensures colorFilter == old(colorFilter) && entryFilter == old(entryFilter)
      ensures groups == old(groups)
      ensures filteredGroups == Filter(groups, Criteria(old(colorFilter), value, old(entryFilter)))
      ensures Consistent()
    {
      privacyFilter := value;
      FilterGroups(colorFilter, value, entryFilter);
    }

    /** The user picks an entry value: only that criterion and the visible list change. */
    method HandleEntryFilterChange(value: string)
      modifies this
      ensures entryFilter == value
      ensures colorFilter == old(colorFilter) && privacyFilter == old(privacyFilter)
      ensures groups == old(groups)
      ensures filteredGroups == Filter(groups, Criteria(old(colorFilter), old(privacyFilter), value))
      ensures Consistent()
    {
      entryFilter := value;
      FilterGroups(colorFilter, privacyFilter, value);
    }

    /** Clears every criterion and shows the full list again. */
    method ResetFilters()
      modifies this
      ensures Current() == NO_FILTER
      ensures groups == old(groups)
      ensures filteredGroups == groups
      ensures Consistent()
    {
      colorFilter := "";
      privacyFilter := "";
      entryFilter := "";
      filteredGroups := groups;
      FilterInactive(groups, NO_FILTER);
    }
  }

  /** The load as written, after a colour was picked during the fetch delay: the
      menu still shows "blue" while the visible list holds a red group too, so the
      visible list is no longer what the criteria select. */
  method StaleListAfterLoad() returns (menuColor: string, shown: seq<Group>, stale: bool)
    ensures menuColor == "blue"
    ensures exists g :: g in shown && g.avatar_color != menuColor
    ensures stale
  {
    var list := new GroupList();
    list.HandleColorFilterChange("blue");
    var blue := Group(1, "first", "blue", false, 10, None);
    var red := Group(2, "second", "red", true, 20, None);
    list.FetchAndSetGroups([blue, red]);
    FilterMembership([blue, red], list.Current(), red);
    menuColor, shown := list.colorFilter, list.filteredGroups;
    assert red in shown;
    stale := !list.Consistent();
  }

  /** The same sequence with the corrected load leaves a consistent state. */
  method RefilteredAfterLoad() returns (menuColor: string, shown: seq<Group>, consistent: bool)
    ensures menuColor == "blue"
    ensures forall g :: g in shown ==> g.avatar_color == menuColor
    ensures consistent
  {
    var list := new GroupList();
    list.HandleColorFilterChange("blue");
    var blue := Group(1, "first", "blue", false, 10, None);
    var red := Group(2, "second", "red", true, 20, None);
    list.FetchAndSetGroupsRefiltered([blue, red]);
    FilterColorAndPrivacy([blue, red], list.Current());
    menuColor, shown := list.colorFilter, list.filteredGroups;
    consistent := list.Consistent();
  }
}
