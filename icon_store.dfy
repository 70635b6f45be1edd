/**
 * The icon registry: groups of mind icons kept in first-insertion order, a
 * table of mind icons by name and a table of UI icons by file name. Java's
 * `null` name is `None`; the hash maps accept it as a key like any other.
 */
module IconRegistry {
  import opened Wrappers

  /** A plain UI icon: only its name and the file its image comes from matter here. */
  datatype UIIcon = UIIcon(name: Option<string>, file: Option<string>)

  /** A mind icon, or the sentinel handed out for a name that is not registered. */
  datatype MindIcon = MindIcon(name: Option<string>, file: Option<string>) | IconNotFound(name: Option<string>)

  datatype IconGroup = IconGroup(name: Option<string>, icons: seq<MindIcon>)

  /** What getUIIcon hands back: a mind icon is a UI icon too. */
  datatype Icon = Mind(mind: MindIcon) | UI(ui: UIIcon)

  /** The exceptions the lookups throw. */
  datatype IconError =
    | NotRegistered(name: Option<string>)   // the RuntimeException of getUIIcon
    | NoUserGroup                           // the NullPointerException of getUserIcons

  const USER_GROUP: Option<string> := Some("user")

  predicate Distinct(s: seq<Option<string>>) {
    forall i, j :: 0 <= i < j < |s| ==> s[i] != s[j]
  }

  /** Every mind icon sits under its own name. */
  predicate KeyedByName(m: map<Option<string>, MindIcon>) {
    forall k :: k in m ==> m[k].name == k
  }

  function Find(m: map<Option<string>, MindIcon>, k: Option<string>): Option<MindIcon> {
    if k in m then Some(m[k]) else None
  }

  /** No icon after position `j` is named `k`. */
  predicate NoLaterNamed(icons: seq<MindIcon>, j: nat, k: Option<string>) {
    forall l :: j < l < |icons| ==> icons[l].name != k
  }

  /** The last icon of `icons` named `k`, if any: the one a sequence of puts leaves behind. */
  function LastNamed(icons: seq<MindIcon>, k: Option<string>): (r: Option<MindIcon>)
    ensures r.Some? ==> r.value in icons && r.value.name == k
    ensures r.None? <==> forall i :: 0 <= i < |icons| ==> icons[i].name != k
    decreases |icons|
  {
    if |icons| == 0 then None
    else if icons[|icons| - 1].name == k then Some(icons[|icons| - 1])
    else LastNamed(icons[..|icons| - 1], k)
  }

  /** The icon at `j` is the last one named `k` exactly when no later icon carries that name. */
  lemma {:induction false} LastNamedAt(icons: seq<MindIcon>, j: nat, k: Option<string>)
    requires j < |icons| && icons[j].name == k && NoLaterNamed(icons, j, k)
    ensures LastNamed(icons, k) == Some(icons[j])
    decreases |icons|
  {
    if j < |icons| - 1 {
      assert icons[|icons| - 1].name != k;
      LastNamedAt(icons[..|icons| - 1], j, k);
    }
  }

  /** The mind-icon table after putting every icon of `icons`, in order, under its name. */
  function Register(m: map<Option<string>, MindIcon>, icons: seq<MindIcon>): (r: map<Option<string>, MindIcon>)
    ensures r.Keys == m.Keys + set i | i in icons :: i.name
    ensures KeyedByName(m) ==> KeyedByName(r)
    decreases |icons|
  {
    if |icons| == 0 then m
    else
      var last := icons[|icons| - 1];
      assert icons == icons[..|icons| - 1] + [last];
      Register(m, icons[..|icons| - 1])[last.name := last]
  }

  /** Looking a name up after the puts: the last icon put under it wins, else the old entry. */
  lemma {:induction false} RegisterLookup(m: map<Option<string>, MindIcon>, icons: seq<MindIcon>, k: Option<string>)
    ensures Find(Register(m, icons), k) == if LastNamed(icons, k).Some? then LastNamed(icons, k) else Find(m, k)
    decreases |icons|
  {
    if |icons| > 0 && icons[|icons| - 1].name != k {
      RegisterLookup(m, icons[..|icons| - 1], k);
    }
  }

  /** The icons of the named groups, group after group, each group's icons in its own order. */
  function AllIcons(order: seq<Option<string>>, groups: map<Option<string>, IconGroup>): (r: seq<MindIcon>)
    requires forall j :: 0 <= j < |order| ==> order[j] in groups
    decreases |order|
  {
    if |order| == 0 then []
    else AllIcons(order[..|order| - 1], groups) + groups[order[|order| - 1]].icons
  }

  /** An icon is listed exactly when one of the named groups holds it. */
  lemma {:induction false} AllIconsMembers(order: seq<Option<string>>, groups: map<Option<string>, IconGroup>, x: MindIcon)
    requires forall j :: 0 <= j < |order| ==> order[j] in groups
    ensures x in AllIcons(order, groups) <==> exists j :: 0 <= j < |order| && x in groups[order[j]].icons
    decreases |order|
  {
    if |order| > 0 {
      var front := order[..|order| - 1];
      AllIconsMembers(front, groups, x);
      if x in AllIcons(front, groups) {
        var j :| 0 <= j < |front| && x in groups[front[j]].icons;
        assert order[j] == front[j];
      }
      if exists j :: 0 <= j < |order| && x in groups[order[j]].icons {
        var j :| 0 <= j < |order| && x in groups[order[j]].icons;
        if j < |front| {
          assert front[j] == order[j];
        }
      }
    }
  }

  /**
   * Replacing the group named `g.name` drops from the listing every icon that
   * neither the new group nor another listed group holds.
   */
  lemma ReplacedIconsUnlisted(order: seq<Option<string>>, groups: map<Option<string>, IconGroup>, g: IconGroup, x: MindIcon)
    requires forall j :: 0 <= j < |order| ==> order[j] in groups
    requires x !in g.icons
    requires forall j :: 0 <= j < |order| && order[j] != g.name ==> x !in groups[order[j]].icons
    ensures x !in AllIcons(order, groups[g.name := g])
  {
    AllIconsMembers(order, groups[g.name := g], x);
  }

  /** A sequence without repeats has as many distinct elements as positions. */
  lemma {:induction false} DistinctCardinality(s: seq<Option<string>>)
    requires Distinct(s)
    ensures |set x | x in s| == |s|
  {
    if |s| > 0 {
      var front := s[..|s| - 1];
      DistinctCardinality(front);
      assert (set x | x in s) == (set x | x in front) + {s[|s| - 1]};
      assert s[|s| - 1] !in front by {
        forall j | 0 <= j < |front| ensures front[j] != s[|s| - 1] {
          assert front[j] == s[j];
        }
      }
    }
  }

  /**
   * What the three tables keep between calls: the group order lists each
   * group name once, groups sit under their names, icons under their names
   * and files, and every icon of a group has been put into the mind-icon table.
   */
  ghost predicate Consistent(order: seq<Option<string>>, groups: map<Option<string>, IconGroup>,
                             mindIcons: map<Option<string>, MindIcon>, uiIcons: map<Option<string>, UIIcon>)
  {
    && Distinct(order)
    && (forall j :: 0 <= j < |order| ==> order[j] in groups)
    && (forall n :: n in groups ==> n in order)
    && (forall n :: n in groups ==> groups[n].name == n)
    && KeyedByName(mindIcons)
    && (forall k :: k in uiIcons ==> uiIcons[k].file == k)
    && (forall n, i :: n in groups && i in groups[n].icons ==> i.name in mindIcons)
  }

  /** addGroup keeps the tables consistent. */
  lemma AddGroupConsistent(order: seq<Option<string>>, groups: map<Option<string>, IconGroup>,
                           mindIcons: map<Option<string>, MindIcon>, uiIcons: map<Option<string>, UIIcon>, g: IconGroup)
    requires Consistent(order, groups, mindIcons, uiIcons)
    ensures Consistent(if g.name in groups then order else order + [g.name], groups[g.name := g],
                       Register(mindIcons, g.icons), uiIcons)
  {
    var order' := if g.name in groups then order else order + [g.name];
    var groups' := groups[g.name := g];
    var mind' := Register(mindIcons, g.icons);
    if g.name !in groups {
      forall a, b | 0 <= a < b < |order'|
        ensures order'[a] != order'[b]
      {
        assert order'[a] == order[a] && order[a] in groups;
        if b < |order| {
          assert order'[b] == order[b];
        }
      }
    }
    forall n, i | n in groups' && i in groups'[n].icons
      ensures i.name in mind'
    {
      if n != g.name {
        assert n in groups && i in groups[n].icons;
      }
    }
  }

  class IconStore {
    /** The keys of `groups` in the order a LinkedHashMap iterates them: first insertion. */
    var groupOrder: seq<Option<string>>
    var groups: map<Option<string>, IconGroup>
    var mindIcons: map<Option<string>, MindIcon>
    var uiIcons: map<Option<string>, UIIcon>

    ghost predicate Valid()
      reads this
    {
      Consistent(groupOrder, groups, mindIcons, uiIcons)
    }

    constructor ()
      ensures Valid()
      ensures groupOrder == [] && groups == map[] && mindIcons == map[] && uiIcons == map[]
    {
      groupOrder, groups, mindIcons, uiIcons := [], map[], map[], map[];
    }

    /**
     * Stores the group under its name (a group of the same name is replaced but
     * keeps its place) and puts each of its icons into the mind-icon table.
     */
    method AddGroup(g: IconGroup)
      requires Valid()
      modifies this
      ensures Valid()
      ensures groupOrder == if g.name in old(groups) then old(groupOrder) else old(groupOrder) + [g.name]
      ensures groups == old(groups)[g.name := g]
      ensures mindIcons == Register(old(mindIcons), g.icons)
      ensures uiIcons == old(uiIcons)
      // each icon of the group is found under its name unless a later icon of the group shares it
      ensures forall j :: 0 <= j < |g.icons| && g.icons[j].name.Some? && NoLaterNamed(g.icons, j, g.icons[j].name) ==>
                GetMindIcon(g.icons[j].name) == g.icons[j]
      // the icons of a replaced group stay registered
      ensures g.name in old(groups) ==> forall i :: i in old(groups)[g.name].icons ==> i.name in mindIcons
    {
      if g.name !in groups {
        groupOrder := groupOrder + [g.name];
      }
      groups := groups[g.name := g];
      ghost var order, table := groupOrder, groups;
      for j := 0 to |g.icons|
        invariant mindIcons == Register(old(mindIcons), g.icons[..j])
        invariant groupOrder == order && groups == table && uiIcons == old(uiIcons)
      {
        assert g.icons[..j + 1][..j] == g.icons[..j];
        mindIcons := mindIcons[g.icons[j].name := g.icons[j]];
      }
      assert g.icons[..|g.icons|] == g.icons;
      AddGroupConsistent(old(groupOrder), old(groups), old(mindIcons), uiIcons, g);
      forall j | 0 <= j < |g.icons| && g.icons[j].name.Some? && NoLaterNamed(g.icons, j, g.icons[j].name)
        ensures GetMindIcon(g.icons[j].name) == g.icons[j]
      {
        LastNamedAt(g.icons, j, g.icons[j].name);
        RegisterLookup(old(mindIcons), g.icons, g.icons[j].name);
      }
    }

    /** Stores the UI icon under its file name. */
    method AddUIIcon(ui: UIIcon)
      requires Valid()
      modifies this
      ensures Valid()
      ensures uiIcons == old(uiIcons)[ui.file := ui]
      ensures groupOrder == old(groupOrder) && groups == old(groups) && mindIcons == old(mindIcons)
      // a mind icon whose name equals the file name shadows the new icon
      ensures GetUIIcon(ui.file) == if ui.file in mindIcons then Success(Mind(mindIcons[ui.file])) else Success(UI(ui))
    {
      uiIcons := uiIcons[ui.file := ui];
    }

    /** The stored groups in first-insertion order, each once. */
    function GetGroups(): (r: seq<IconGroup>)
      requires Valid()
      reads this
      ensures |r| == |groupOrder| == |groups|
      ensures forall j :: 0 <= j < |r| ==> r[j] == groups[groupOrder[j]] && r[j].name == groupOrder[j]
      ensures forall n :: n in groups ==> groups[n] in r
    {
      DistinctCardinality(groupOrder);
      assert groups.Keys == set n | n in groupOrder;
      assert forall n :: n in groups ==> groups[n] == groups[groupOrder[IndexOf(groupOrder, n)]];
      var order, table := groupOrder, groups;
      seq(|order|, j requires 0 <= j < |order| && order[j] in table => table[order[j]])
    }

    /** Every icon of every group, groups in first-insertion order. */
    method GetMindIcons() returns (icons: seq<MindIcon>)
      requires Valid()
      ensures icons == AllIcons(groupOrder, groups)
      ensures forall x :: x in icons <==> exists n :: n in groups && x in groups[n].icons
    {
      icons := [];
      for j := 0 to |groupOrder|
        invariant icons == AllIcons(groupOrder[..j], groups)
      {
        assert groupOrder[..j + 1][..j] == groupOrder[..j];
        icons := icons + groups[groupOrder[j]].icons;
      }
      assert groupOrder[..|groupOrder|] == groupOrder;
      forall x
        ensures x in icons <==> exists n :: n in groups && x in groups[n].icons
      {
        AllIconsMembers(groupOrder, groups, x);
        if exists n :: n in groups && x in groups[n].icons {
          var n :| n in groups && x in groups[n].icons;
          var j := IndexOf(groupOrder, n);
          assert x in groups[groupOrder[j]].icons;
        }
      }
    }

    /** The icons of the group named "user"; there being none is the NullPointerException. */
    function GetUserIcons(): (r: Result<seq<MindIcon>, IconError>)
      requires Valid()
      reads this
      ensures r.Failure? <==> USER_GROUP !in groups
      ensures r.Failure? ==> r.error == NoUserGroup
      ensures r.Success? ==> r.value == groups[USER_GROUP].icons
      ensures r.Success? ==> forall x :: x in r.value ==> x in AllIcons(groupOrder, groups)
    {
      if USER_GROUP in groups then
        var j := IndexOf(groupOrder, USER_GROUP);
        assert forall x :: x in groups[USER_GROUP].icons ==> x in AllIcons(groupOrder, groups) by {
          forall x | x in groups[USER_GROUP].icons
            ensures x in AllIcons(groupOrder, groups)
          {
            AllIconsMembers(groupOrder, groups, x);
            assert x in groups[groupOrder[j]].icons;
          }
        }
        Success(groups[USER_GROUP].icons)
      else
        Failure(NoUserGroup)
    }

    /** Never fails: an unknown or null name gives a sentinel carrying that name. */
    function GetMindIcon(name: Option<string>): (r: MindIcon)
      requires Valid()
      reads this
      ensures r.name == name
      ensures name.Some? && name in mindIcons ==> r == mindIcons[name]
      ensures name.None? || name !in mindIcons ==> r == IconNotFound(name)
    {
      assert KeyedByName(mindIcons);
      if name.None? then IconNotFound(name)
      else if name in mindIcons then mindIcons[name]
      else IconNotFound(name)
    }

    /** Mind icons first, then UI icons by file name; in neither is the RuntimeException. */
    function GetUIIcon(name: Option<string>): (r: Result<Icon, IconError>)
      requires Valid()
      reads this
      ensures r.Success? <==> name in mindIcons || name in uiIcons
      ensures r.Failure? ==> r.error == NotRegistered(name)
      ensures name in mindIcons ==> r == Success(Mind(mindIcons[name])) && r.value.mind.name == name
      ensures name !in mindIcons && name in uiIcons ==> r == Success(UI(uiIcons[name])) && r.value.ui.file == name
    {
      if name in mindIcons then Success(Mind(mindIcons[name]))
      else if name in uiIcons then Success(UI(uiIcons[name]))
      else Failure(NotRegistered(name))
    }
  }

  /** A position of `x` in `s`. */
  function IndexOf(s: seq<Option<string>>, x: Option<string>): (j: nat)
    requires x in s
    ensures j < |s| && s[j] == x
  {
    if s[0] == x then 0 else 1 + IndexOf(s[1..], x)
  }
}
