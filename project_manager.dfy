/**
 * The project registry kept in the user preferences: one child node per
 * known project, named by a number and holding the project's path, the
 * saved active project, the list of recent projects and the active
 * project. Files are identified by their absolute path.
 */
module ProjectManager {
  import opened Wrappers
  import opened JavaText

  /** A child node of the "projects" preferences node and its "path" entry, if any. */
  datatype Child = Child(name: string, path: Option<string>)

  function Names(children: seq<Child>): (r: seq<string>)
    ensures |r| == |children| && forall i :: 0 <= i < |r| ==> r[i] == children[i].name
  {
    seq(|children|, i requires 0 <= i < |children| => children[i].name)
  }

  /** Preferences child names are unique. */
  predicate DistinctNames(children: seq<Child>) {
    NoDuplicates(Names(children))
  }

  /** A child whose name is new keeps the names distinct. */
  lemma DistinctNamesAppend(children: seq<Child>, c: Child)
    requires DistinctNames(children) && c.name !in Names(children)
    ensures DistinctNames(children + [c])
  {
    assert Names(children + [c]) == Names(children) + [c.name];
  }

  /** The first child whose stored path is `project`. */
  function FindChild(children: seq<Child>, project: string): (r: Option<nat>)
    ensures r.Some? ==> r.value < |children| && children[r.value].path == Some(project)
    ensures r.Some? ==> forall j :: 0 <= j < r.value ==> children[j].path != Some(project)
    ensures r.None? ==> forall j :: 0 <= j < |children| ==> children[j].path != Some(project)
  {
    if children == [] then None
    else if children[0].path == Some(project) then Some(0)
    else match FindChild(children[1..], project)
      case None => None
      case Some(i) => Some(i + 1)
  }

  /** A child added at the end does not change which earlier child is found. */
  lemma {:induction false} FindChildAppend(children: seq<Child>, c: Child, project: string)
    ensures FindChild(children, project).Some? ==> FindChild(children + [c], project) == FindChild(children, project)
    ensures FindChild(children, project).None? && c.path == Some(project) ==> FindChild(children + [c], project) == Some(|children|)
  {
    if children != [] {
      var all := children + [c];
      assert all[0] == children[0] && all[1..] == children[1..] + [c];
      FindChildAppend(children[1..], c, project);
    }
  }

  /**
   * The lastID loop as written: the largest child name that
   * Integer.parseInt accepts, or 0, in Java `int`.
   */
  function MaxIdAsWritten(names: seq<string>): (r: int)
    ensures IsInt32(r) && r >= 0
  {
    if names == [] then 0
    else
      var m := MaxIdAsWritten(names[..|names| - 1]);
      match ParseInt(names[|names| - 1])
      case Some(v) => if v > m then v else m
      case None => m
  }

  /** String.valueOf(lastID + 1) with Java's 32-bit addition. */
  function NewChildNameAsWritten(names: seq<string>): string {
    IntToString(Wrap32(MaxIdAsWritten(names) + 1))
  }

  /**
   * With children named "2147483647" and "-2147483648", lastID + 1 wraps
   * round to -2147483648 and the "new" node is the existing one, whose
   * path is then overwritten.
   */
  lemma NewChildNameCollision(top: int, bottom: int)
    requires top == Int32Max && bottom == Int32Min
    ensures NewChildNameAsWritten([IntToString(top), IntToString(bottom)]) == IntToString(bottom)
  {
    var names := [IntToString(top), IntToString(bottom)];
    ParseIntToString(top);
    ParseIntToString(bottom);
    assert names[..1] == [IntToString(top)] && [IntToString(top)][..0] == [];
    assert MaxIdAsWritten(names[..1]) == top;
    assert MaxIdAsWritten(names) == top;
    MaxPlusOneWraps();
  }

  /**
   * A child name beyond 32 bits, such as "5000000000", is skipped by
   * Integer.parseInt, so the code as written names the new node "1";
   * the overflow-free name is "5000000001".
   */
  lemma WideNameSkipped(big: int)
    requires big > Int32Max
    ensures NewChildNameAsWritten([IntToString(big)]) == IntToString(1)
    ensures NewChildName([IntToString(big)]) == IntToString(big + 1)
  {
    var names := [IntToString(big)];
    ParseIntegerToString(big);
    assert ParseInt(names[0]).None?;
    assert names[..0] == [];
    assert MaxIdAsWritten(names) == 0;
    assert MaxId(names) == big;
  }

  /** Integer.MAX_VALUE + 1 is Integer.MIN_VALUE in Java `int`. */
  lemma MaxPlusOneWraps()
    ensures Wrap32(Int32Max + 1) == Int32Min
  {
  }

  /**
   * The lastID loop computed without overflow: the largest integer any
   * child name reads as, or 0 when there is none (or all are negative).
   */
  function MaxId(names: seq<string>): (r: int)
    ensures r >= 0
    ensures forall k :: 0 <= k < |names| && ParseInteger(names[k]).Some? ==> ParseInteger(names[k]).value <= r
    ensures r == 0 || exists k :: 0 <= k < |names| && ParseInteger(names[k]) == Some(r)
  {
    if names == [] then 0
    else
      var init := names[..|names| - 1];
      var m := MaxId(init);
      assert forall k :: 0 <= k < |init| ==> init[k] == names[k];
      match ParseInteger(names[|names| - 1])
      case Some(v) => if v > m then v else m
      case None => m
  }

  /** The name given to a new project's child node: one more than every numeric name. */
  function NewChildName(names: seq<string>): string {
    IntToString(MaxId(names) + 1)
  }

  /** The new child's name is not the name of any existing child. */
  lemma NewChildNameFresh(names: seq<string>)
    ensures NewChildName(names) !in names
  {
    ParseIntegerToString(MaxId(names) + 1);
  }

  /** Every child name that parses as an integer parses to a 32-bit value. */
  predicate NumericNamesFit(names: seq<string>) {
    forall k :: 0 <= k < |names| && ParseInteger(names[k]).Some? ==> IsInt32(ParseInteger(names[k]).value)
  }

  /**
   * While every numeric name fits in 32 bits and the largest is below
   * Integer.MAX_VALUE, the code as written picks the same name.
   */
  lemma AsWrittenAgrees(names: seq<string>)
    requires NumericNamesFit(names)
    requires MaxId(names) < Int32Max
    ensures NewChildNameAsWritten(names) == NewChildName(names)
  {
    var m := MaxId(names);
    MaxIdAgrees(names);
    WrapInRange(m + 1);
    calc {
      NewChildNameAsWritten(names);
      IntToString(Wrap32(MaxIdAsWritten(names) + 1));
      IntToString(Wrap32(m + 1));
      IntToString(m + 1);
      NewChildName(names);
    }
  }

  lemma WrapInRange(n: int)
    requires IsInt32(n)
    ensures IntToString(Wrap32(n)) == IntToString(n)
  {
  }

  lemma {:induction false} MaxIdAgrees(names: seq<string>)
    requires NumericNamesFit(names)
    ensures MaxIdAsWritten(names) == MaxId(names)
  {
    if names != [] {
      var init := names[..|names| - 1];
      assert forall k :: 0 <= k < |init| ==> init[k] == names[k];
      MaxIdAgrees(init);
    }
  }

  /** getRecentProjects: the stored paths, in child order, skipping children without one. */
  function RecentPaths(children: seq<Child>): seq<string> {
    if children == [] then []
    else
      var last := children[|children| - 1];
      RecentPaths(children[..|children| - 1]) + (if last.path.Some? then [last.path.value] else [])
  }

  /** A path is among the recent projects exactly when some child stores it. */
  lemma {:induction false} RecentPathsMembers(children: seq<Child>, p: string)
    ensures p in RecentPaths(children) <==> FindChild(children, p).Some?
  {
    if children != [] {
      var init := children[..|children| - 1];
      RecentPathsMembers(init, p);
      assert children == init + [children[|children| - 1]];
      FindChildAppend(init, children[|children| - 1], p);
    }
  }

  /** Every child holding a path contributes one recent project. */
  lemma {:induction false} RecentPathsLength(children: seq<Child>)
    ensures |RecentPaths(children)| <= |children|
    ensures (forall i :: 0 <= i < |children| ==> children[i].path.Some?) ==> |RecentPaths(children)| == |children|
  {
    if children != [] {
      var init := children[..|children| - 1];
      assert forall i :: 0 <= i < |init| ==> init[i] == children[i];
      RecentPathsLength(init);
    }
  }

  /** The project made active at start-up: the saved one, else the first recent project. */
  function StartupActive(saved: Option<string>, recent: seq<string>): Option<string> {
    if saved.Some? then saved else if recent != [] then Some(recent[0]) else None
  }

  /** The first loop of getProjectState. */
  method FindChildIndex(children: seq<Child>, project: string) returns (r: Option<nat>)
    ensures r == FindChild(children, project)
  {
    var i := 0;
    while i < |children|
      invariant 0 <= i <= |children|
      invariant forall j :: 0 <= j < i ==> children[j].path != Some(project)
    {
      if children[i].path == Some(project) {
        return Some(i);
      }
      i := i + 1;
    }
    return None;
  }

  /** The lastID loop of getProjectState, without the 32-bit overflow. */
  method MaxChildId(names: seq<string>) returns (lastID: int)
    ensures lastID == MaxId(names)
  {
    lastID := 0;
    var i := 0;
    while i < |names|
      invariant 0 <= i <= |names|
      invariant lastID == MaxId(names[..i])
    {
      assert names[..i + 1][..i] == names[..i];
      var childID := ParseInteger(names[i]);
      if childID.Some? && childID.value > lastID {
        lastID := childID.value;
      }
      i := i + 1;
    }
    assert names[..i] == names;
  }

  class ProjectManager {
    /** The child nodes of the "projects" preferences node, in childrenNames order. */
    var children: seq<Child>
    /** The "active" entry of the "projects" node. */
    var activeSaved: Option<string>
    /** The observable list of recent projects. */
    var projects: seq<string>
    var activeProject: Option<string>

    /**
     * Child names are unique, every recent project has a child node
     * storing it, and the active project is a recent project.
     */
    predicate Valid()
      reads this
    {
      DistinctNames(children) &&
      (forall k :: 0 <= k < |projects| ==> FindChild(children, projects[k]).Some?) &&
      (activeProject.Some? ==> activeProject.value in projects)
    }

    /**
     * getProjectState(project, create): the child storing the project's
     * path if there is one; otherwise None when not creating, or a new
     * child named NewChildName holding the path.
     */
    method GetProjectState(project: string, create: bool) returns (node: Option<string>)
      requires DistinctNames(children)
      modifies this`children
      ensures DistinctNames(children)
      ensures FindChild(old(children), project).Some? ==>
        node == Some(old(children)[FindChild(old(children), project).value].name) && children == old(children)
      ensures FindChild(old(children), project).None? && !create ==> node == None && children == old(children)
      ensures FindChild(old(children), project).None? && create ==>
        node == Some(NewChildName(Names(old(children)))) &&
        children == old(children) + [Child(NewChildName(Names(old(children))), Some(project))]
      ensures create ==> FindChild(children, project).Some?
      ensures forall q :: FindChild(old(children), q).Some? ==> FindChild(children, q) == FindChild(old(children), q)
    {
      var found := FindChildIndex(children, project);
      if found.Some? {
        return Some(children[found.value].name);
      }
      if !create {
        return None;
      }
      var names := Names(children);
      var lastID := MaxChildId(names);
      var name := IntToString(lastID + 1);
      NewChildNameFresh(names);
      var c := Child(name, Some(project));
      forall q | FindChild(children, q).Some?
        ensures FindChild(children + [c], q) == FindChild(children, q)
      {
        FindChildAppend(children, c, q);
      }
      FindChildAppend(children, c, project);
      DistinctNamesAppend(children, c);
      children := children + [c];
      node := Some(name);
    }

    /** removeProjectState: the child storing the project is removed; nothing happens when there is none. */
    method RemoveProjectState(project: string)
      requires DistinctNames(children)
      modifies this`children
      ensures DistinctNames(children)
      ensures FindChild(old(children), project).None? ==> children == old(children)
      ensures FindChild(old(children), project).Some? ==>
        var i := FindChild(old(children), project).value;
        children == old(children)[..i] + old(children)[i + 1..]
    {
      var found := FindChildIndex(children, project);
      if found.Some? {
        var i := found.value;
        children := children[..i] + children[i + 1..];
      }
    }

    /** getRecentProjects: one entry per child that stores a path. */
    method GetRecentProjects() returns (paths: seq<string>)
      ensures paths == RecentPaths(children)
    {
      paths := [];
      var i := 0;
      while i < |children|
        invariant 0 <= i <= |children|
        invariant paths == RecentPaths(children[..i])
      {
        assert children[..i + 1][..i] == children[..i];
        var path := children[i].path;
        if path.Some? {
          paths := paths + [path.value];
        }
        i := i + 1;
      }
      assert children[..i] == children;
    }

    /**
     * setActiveProject with the activeProject listener, which fires only
     * on a change: the path is saved under "active" (removed for null),
     * and a project not yet in the recent list is added to it, which
     * through the projects listener gives it a child node.
     */
    method SetActiveProject(p: Option<string>)
      requires Valid()
      modifies this
      ensures Valid()
      ensures activeProject == p
      ensures p == old(activeProject) ==>
        activeSaved == old(activeSaved) && projects == old(projects) && children == old(children)
      ensures p != old(activeProject) ==> activeSaved == p
      ensures p.Some? && p.value !in old(projects) ==> projects == old(projects) + [p.value]
      ensures p.None? || p.value in old(projects) ==> projects == old(projects) && children == old(children)
      ensures p.Some? && p.value !in old(projects) && FindChild(old(children), p.value).None? ==>
        children == old(children) + [Child(NewChildName(Names(old(children))), Some(p.value))]
      ensures p.Some? && FindChild(old(children), p.value).Some? ==> children == old(children)
      ensures p.Some? ==> FindChild(children, p.value).Some?
      ensures NoDuplicates(old(projects)) ==> NoDuplicates(projects)
    {
      if p == activeProject {
        return;
      }
      activeProject := p;
      activeSaved := p;
      if p.Some? && p.value !in projects {
        var _ := GetProjectState(p.value, true);
        projects := projects + [p.value];
      } else if p.Some? {
        var k :| 0 <= k < |projects| && projects[k] == p.value;
      }
    }

    /**
     * The static initialiser: the recent projects are read from the
     * children, then the saved active project is made active, or else the
     * first recent project.
     */
    constructor Startup(saved: seq<Child>, active: Option<string>)
      requires DistinctNames(saved)
      ensures Valid()
      ensures activeProject == StartupActive(active, RecentPaths(saved))
      ensures activeSaved == activeProject
      ensures active.Some? && active.value !in RecentPaths(saved) ==>
        projects == RecentPaths(saved) + [active.value] &&
        children == saved + [Child(NewChildName(Names(saved)), active)]
      ensures active.None? || active.value in RecentPaths(saved) ==> projects == RecentPaths(saved) && children == saved
    {
      children := saved;
      activeSaved := active;
      projects := [];
      activeProject := None;
      new;
      var recent := GetRecentProjects();
      forall k | 0 <= k < |recent|
        ensures FindChild(children, recent[k]).Some?
      {
        RecentPathsMembers(children, recent[k]);
      }
      projects := recent;
      if active.Some? {
        RecentPathsMembers(children, active.value);
        SetActiveProject(active);
        assert activeProject.Some? && activeSaved == activeProject;
      }
      if activeProject == None && projects != [] {
        SetActiveProject(Some(projects[0]));
      }
    }
  }
}
