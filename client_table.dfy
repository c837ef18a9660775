/**
 * The table component's own state: the search text and the active sort column
 * and direction, with the column-header toggle and the rows a render shows.
 */
module ClientTable {
  import opened Types
  import opened RosterFilter
  import opened RosterSort

  /** The active column and direction. */
  datatype SortState = SortState(field: SortField, direction: Direction)

  /** The state a fresh table starts in: by name, ascending. */
  const InitialSort: SortState := SortState(Name, Asc)

  function Flip(d: Direction): (r: Direction)
    ensures r != d
  {
    if d == Asc then Desc else Asc
  }

  /** The state after a click on the header of column `f`. */
  function NextSort(s: SortState, f: SortField): (n: SortState)
    ensures n.field == f
    ensures f == s.field ==> n.direction != s.direction
    ensures f != s.field ==> n.direction == Asc
  {
    if f == s.field then SortState(s.field, Flip(s.direction)) else SortState(f, Asc)
  }

  /** Two clicks on the active column give back the state they started from. */
  lemma ToggleTwiceRestores(s: SortState)
    ensures NextSort(NextSort(s, s.field), s.field) == s
  {
  }

  /** Two clicks on another column select it in descending order. */
  lemma NewColumnTwiceDescends(s: SortState, f: SortField)
    requires f != s.field
    ensures NextSort(NextSort(s, f), f) == SortState(f, Desc)
  {
  }

  /** From a fresh table, two clicks on the name header sort ascending again. */
  lemma NameHeaderTwiceFromStart()
    ensures NextSort(InitialSort, Name) == SortState(Name, Desc)
    ensures NextSort(NextSort(InitialSort, Name), Name) == InitialSort
  {
  }

  /** The rows a render shows: the filtered clients, sorted. */
  ghost predicate IsView(rows: seq<Client>, clients: seq<Client>, search: string, s: SortState) {
    && multiset(rows) == multiset(Filter(clients, search))
    && Sorted(rows, s.field, s.direction)
  }

  class Table {
    var search: string
    var sortField: SortField
    var sortDirection: Direction

    function Sort(): SortState
      reads this
    {
      SortState(sortField, sortDirection)
    }

    constructor ()
      ensures search == "" && Sort() == InitialSort
    {
      search := "";
      sortField := Name;
      sortDirection := Asc;
    }

    /** The search box's change handler. */
    method SetSearch(text: string)
      modifies this
      ensures search == text && Sort() == old(Sort())
    {
      search := text;
    }

    /** `handleSort`: a click on the header of column `f`. */
    method HandleSort(f: SortField)
      modifies this
      ensures Sort() == NextSort(old(Sort()), f)
      ensures search == old(search)
    {
      if f == sortField {
        sortDirection := Flip(sortDirection);
      } else {
        sortField := f;
        sortDirection := Asc;
      }
    }

    /** The rows of one render: every shown client is one of `clients` whose name
        matches the search, each matching client is shown as often as it occurs,
        and the order is the active sort. */
    method Rows(clients: seq<Client>) returns (rows: seq<Client>)
      ensures IsView(rows, clients, search, Sort())
      ensures forall k :: 0 <= k < |rows| ==> rows[k] in clients && Matches(rows[k], search)
      ensures forall c :: c in clients && Matches(c, search) ==> c in rows
    {
      var filtered := Filter(clients, search);
      rows := SortedClients(filtered, sortField, sortDirection);
      forall k | 0 <= k < |rows| ensures rows[k] in clients && Matches(rows[k], search) {
        assert rows[k] in multiset(filtered);
        FilterKeepsExactlyMatching(clients, search, rows[k]);
      }
      forall c | c in clients && Matches(c, search) ensures c in rows {
        FilterKeepsExactlyMatching(clients, search, c);
        assert c in multiset(rows);
      }
    }
  }
}
