/**
 * The process list of the inbox pages: unsorted until a column header is
 * clicked, then sorted by process id, ascending first and alternating
 * direction on each further click of the same header.
 */
module ProcessTable {
  import opened Common
  import opened Types
  import Text

  datatype Direction = Ascending | Descending

  /** The sortable columns; only the process id is sortable. */
  datatype SortKey = IdKey

  datatype SortConfig = SortConfig(key: SortKey, direction: Direction)

  function Key(p: Process, key: SortKey): string {
    match key
    case IdKey => p.id
  }

  /**
   * The comparator handed to `sort`: keys compared as strings, the sign
   * flipped for a descending sort, zero for equal keys.
   */
  function Compare(a: Process, b: Process, config: SortConfig): (r: int)
    ensures r == 0 <==> Key(a, config.key) == Key(b, config.key)
    ensures config.direction == Ascending ==> (r < 0 <==> Text.LexLess(Key(a, config.key), Key(b, config.key)))
    ensures config.direction == Descending ==> (r < 0 <==> Text.LexLess(Key(b, config.key), Key(a, config.key)))
    ensures -1 <= r <= 1
  {
    var x := Key(a, config.key);
    var y := Key(b, config.key);
    Text.LexLessIrreflexive(x);
    Text.LexLessTotal(x, y);
    LexLessAsymmetric(x, y);
    if Text.LexLess(x, y) then (if config.direction == Ascending then -1 else 1)
    else if Text.LexLess(y, x) then (if config.direction == Ascending then 1 else -1)
    else 0
  }

  lemma LexLessAsymmetric(x: string, y: string)
    ensures !(Text.LexLess(x, y) && Text.LexLess(y, x))
  {
    if Text.LexLess(x, y) && Text.LexLess(y, x) {
      Text.LexLessTransitive(x, y, x);
      Text.LexLessIrreflexive(x);
    }
  }

  /** `a` may come before `b`: the comparator does not put it after. */
  predicate InOrder(a: Process, b: Process, config: SortConfig) {
    Compare(a, b, config) <= 0
  }

  /** Every pair of the sequence is in order. */
  predicate Sorted(s: seq<Process>, config: SortConfig) {
    forall i, j :: 0 <= i < j < |s| ==> InOrder(s[i], s[j], config)
  }

  /** The comparator swaps sign when its arguments are swapped. */
  lemma CompareAntisymmetric(a: Process, b: Process, config: SortConfig)
    ensures Compare(a, b, config) == -Compare(b, a, config)
  {
    LexLessAsymmetric(Key(a, config.key), Key(b, config.key));
  }

  lemma InOrderTotal(a: Process, b: Process, config: SortConfig)
    ensures InOrder(a, b, config) || InOrder(b, a, config)
  {
    CompareAntisymmetric(a, b, config);
  }

  lemma InOrderTransitive(a: Process, b: Process, c: Process, config: SortConfig)
    requires InOrder(a, b, config) && InOrder(b, c, config)
    ensures InOrder(a, c, config)
  {
    var x, y, z := Key(a, config.key), Key(b, config.key), Key(c, config.key);
    if x != y && y != z {
      if config.direction == Ascending {
        Text.LexLessTransitive(x, y, z);
      } else {
        Text.LexLessTransitive(z, y, x);
      }
    }
  }

  /**
   * What a sorted list shows: ids never decrease down an ascending list and
   * never increase down a descending one.
   */
  lemma SortedByIds(s: seq<Process>, direction: Direction, i: nat, j: nat)
    requires Sorted(s, SortConfig(IdKey, direction)) && i < j < |s|
    ensures direction == Ascending ==> !Text.LexLess(s[j].id, s[i].id)
    ensures direction == Descending ==> !Text.LexLess(s[i].id, s[j].id)
  {
    assert InOrder(s[i], s[j], SortConfig(IdKey, direction));
    LexLessAsymmetric(s[i].id, s[j].id);
    Text.LexLessIrreflexive(s[i].id);
  }

  /** The first n elements are pairwise in order. */
  predicate SortedPrefix(s: seq<Process>, n: nat, config: SortConfig)
    requires n <= |s|
  {
    forall k, l :: 0 <= k < l < n ==> InOrder(s[k], s[l], config)
  }

  /**
   * Midway through inserting element i, now at position j: the first i + 1
   * elements other than position j are in order, and position j is in order
   * with everything after it up to i.
   */
  predicate Inserting(s: seq<Process>, i: nat, j: nat, config: SortConfig)
    requires j <= i < |s|
  {
    && (forall k, l :: 0 <= k < l <= i && k != j && l != j ==> InOrder(s[k], s[l], config))
    && (forall l :: j < l <= i ==> InOrder(s[j], s[l], config))
  }

  /**
   * `sortableItems.sort(...)`, as an insertion sort by adjacent swaps: the
   * array ends sorted and holds the same processes.
   */
  method SortInPlace(a: array<Process>, config: SortConfig)
    modifies a
    ensures Sorted(a[..], config)
    ensures multiset(a[..]) == multiset(old(a[..]))
  {
    var i := 0;
    while i < a.Length
      invariant 0 <= i <= a.Length
      invariant SortedPrefix(a[..], i, config)
      invariant multiset(a[..]) == multiset(old(a[..]))
    {
      var j := i;
      StartInserting(a[..], i, config);
      while j > 0 && !InOrder(a[j - 1], a[j], config)
        invariant 0 <= j <= i
        invariant Inserting(a[..], i, j, config)
        invariant multiset(a[..]) == multiset(old(a[..]))
      {
        ghost var before := a[..];
        a[j - 1], a[j] := a[j], a[j - 1];
        SwapStep(before, a[..], i, j, config);
        j := j - 1;
      }
      InsertionDone(a[..], i, j, config);
      i := i + 1;
    }
  }

  /** Before element i moves, it sits at position i after a sorted prefix. */
  lemma StartInserting(s: seq<Process>, i: nat, config: SortConfig)
    requires i < |s| && SortedPrefix(s, i, config)
    ensures Inserting(s, i, i, config)
  {
  }

  /**
   * One adjacent swap of the insertion step: the element moving left stays in
   * order with everything after it, the other pairs stay in order, and the
   * contents are unchanged.
   */
  lemma SwapStep(s: seq<Process>, t: seq<Process>, i: nat, j: nat, config: SortConfig)
    requires 0 < j <= i < |s| && t == s[j - 1 := s[j]][j := s[j - 1]]
    requires Inserting(s, i, j, config) && !InOrder(s[j - 1], s[j], config)
    ensures Inserting(t, i, j - 1, config)
    ensures multiset(t) == multiset(s)
  {
    InOrderTotal(s[j - 1], s[j], config);
    assert t == s[..j - 1] + [s[j], s[j - 1]] + s[j + 1..];
    assert s == s[..j - 1] + [s[j - 1], s[j]] + s[j + 1..];
  }

  /** When the moving element has stopped, the first i + 1 elements are in order. */
  lemma InsertionDone(s: seq<Process>, i: nat, j: nat, config: SortConfig)
    requires j <= i < |s| && Inserting(s, i, j, config)
    requires j == 0 || InOrder(s[j - 1], s[j], config)
    ensures SortedPrefix(s, i + 1, config)
  {
    forall k | 0 <= k < j ensures InOrder(s[k], s[j], config) {
      if k < j - 1 {
        InOrderTransitive(s[k], s[j - 1], s[j], config);
      }
    }
  }

  /** `requestSort`: ascending, unless the same column is already ascending. */
  function NextConfig(config: Option<SortConfig>, key: SortKey): (r: SortConfig)
    ensures r.key == key
    ensures r.direction == Descending <==> config == Some(SortConfig(key, Ascending))
  {
    if config.Some? && config.value.key == key && config.value.direction == Ascending then SortConfig(key, Descending)
    else SortConfig(key, Ascending)
  }

  /** Clicking the same header again flips the direction. */
  lemma RequestSortAlternates(config: Option<SortConfig>, key: SortKey)
    ensures NextConfig(Some(NextConfig(config, key)), key).direction != NextConfig(config, key).direction
  {
  }

  class ProcessTable {
    /** None until a header is first clicked. */
    var sortConfig: Option<SortConfig>

    constructor()
      ensures sortConfig.None?
    {
      sortConfig := None;
    }

    method RequestSort(key: SortKey)
      modifies this
      ensures sortConfig == Some(NextConfig(old(sortConfig), key))
    {
      sortConfig := Some(NextConfig(sortConfig, key));
    }

    /**
     * The rows shown: the processes as given while unsorted, otherwise a
     * sorted rearrangement of a copy of them.
     */
    method SortedProcesses(processes: seq<Process>) returns (items: seq<Process>)
      ensures sortConfig.None? ==> items == processes
      ensures sortConfig.Some? ==> Sorted(items, sortConfig.value) && multiset(items) == multiset(processes)
    {
      if sortConfig.None? {
        return processes;
      }
      var copy := new Process[|processes|](k requires 0 <= k < |processes| => processes[k]);
      assert copy[..] == processes;
      SortInPlace(copy, sortConfig.value);
      items := copy[..];
    }
  }
}

/**
 * The department switcher of the header: the current department, and a menu
 * of the departments the user may work in with the current one ticked.
 */
module DepartmentSelector {
  import opened Common
  import opened Types
  import ProcessHandlers

  function DepartmentIdOf(d: Department): int {
    d.id
  }

  /** The departments of the table that the user is allowed to work in, in table order. */
  function AllowedDepartments(user: User, ds: seq<Department>): (r: seq<Department>)
    ensures SubsequenceOf(r, ds)
    ensures forall d :: d in r <==> d in ds && d.id in user.allowedDepartmentIds
  {
    Filter(ds, (d: Department) => d.id in user.allowedDepartmentIds)
  }

  datatype MenuEntry = MenuEntry(department: Department, checked: bool)

  /**
   * The switcher: nothing when the current department is not in the table,
   * otherwise one entry per allowed department, ticked when it is the current one.
   */
  function Menu(user: User, ds: seq<Department>, currentDepartmentId: int): (r: Option<seq<MenuEntry>>)
    ensures r.None? <==> ProcessHandlers.DepartmentById(ds, currentDepartmentId).None?
    ensures r.Some? ==> |r.value| == |AllowedDepartments(user, ds)|
    ensures r.Some? ==> forall i :: 0 <= i < |r.value| ==>
      && r.value[i].department == AllowedDepartments(user, ds)[i]
      && (r.value[i].checked <==> r.value[i].department.id == currentDepartmentId)
  {
    if ProcessHandlers.DepartmentById(ds, currentDepartmentId).None? then None
    else Some(Map(AllowedDepartments(user, ds), (d: Department) => MenuEntry(d, d.id == currentDepartmentId)))
  }

  /**
   * With distinct department ids at most one entry is ticked, and one is
   * exactly when the current department is among the allowed ones.
   */
  lemma OnlyCurrentChecked(user: User, ds: seq<Department>, currentDepartmentId: int)
    requires DistinctBy(ds, DepartmentIdOf)
    requires Menu(user, ds, currentDepartmentId).Some?
    ensures var entries := Menu(user, ds, currentDepartmentId).value;
      forall i, j :: 0 <= i < j < |entries| ==> !(entries[i].checked && entries[j].checked)
    ensures var entries := Menu(user, ds, currentDepartmentId).value;
      (exists i :: 0 <= i < |entries| && entries[i].checked) <==> currentDepartmentId in user.allowedDepartmentIds
  {
    var allowed := AllowedDepartments(user, ds);
    FilterKeepsDistinctBy(ds, (d: Department) => d.id in user.allowedDepartmentIds, DepartmentIdOf);
    var entries := Menu(user, ds, currentDepartmentId).value;
    if currentDepartmentId in user.allowedDepartmentIds {
      var d := ProcessHandlers.DepartmentById(ds, currentDepartmentId).value;
      assert d in allowed;
      var k :| 0 <= k < |allowed| && allowed[k] == d;
      assert entries[k].checked;
    }
    if i :| 0 <= i < |entries| && entries[i].checked {
      assert allowed[i] in allowed;
    }
  }

  /**
   * Choosing an entry makes its department the current one (the store's
   * `handleDepartmentChange`), and the switcher then shows that department
   * and ticks it.
   */
  lemma SelectMakesCurrent(user: User, ds: seq<Department>, currentDepartmentId: int, i: nat)
    requires DistinctBy(ds, DepartmentIdOf)
    requires Menu(user, ds, currentDepartmentId).Some? && i < |Menu(user, ds, currentDepartmentId).value|
    ensures var chosen := Menu(user, ds, currentDepartmentId).value[i].department;
      && ProcessHandlers.DepartmentById(ds, chosen.id) == Some(chosen)
      && Menu(user, ds, chosen.id).Some?
      && Menu(user, ds, chosen.id).value[i] == MenuEntry(chosen, true)
  {
    var allowed := AllowedDepartments(user, ds);
    var chosen := allowed[i];
    assert chosen in ds;
    var k :| 0 <= k < |ds| && ds[k] == chosen;
    FindUnique(ds, (d: Department) => d.id == chosen.id, k);
  }
}
