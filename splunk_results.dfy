/**
 * The two ways SplunkConnection hands over the CSV rows of a search export:
 * parseResults, which passes every row whose width matches the header to a
 * SearchResultListener, and SplunkResultIterator, an enumerator that picks the wanted
 * fields out of each such row. The CSV reader is modelled by the rows it would return,
 * the first of which is the header.
 */
module SplunkResults {
  import opened Options

  /** The value of current(): null, one field's value, or an array of values some of
      which may be null. */
  datatype Current = Null | Field(value: string) | Record(cells: seq<Option<string>>)

  /** How moveNext ends: true, false, or an ArrayIndexOutOfBoundsException. */
  datatype Advance = Moved | Exhausted | IndexOutOfBounds

  /** The header row, or null when the reader has no rows at all. */
  function Header(csv: seq<seq<string>>): Option<seq<string>>
  {
    if |csv| == 0 then None else Some(csv[0])
  }

  /** A header the code accepts: present, not empty, and not a single empty name. */
  predicate Usable(header: Option<seq<string>>)
  {
    header.Some? && |header.value| > 0 && !(|header.value| == 1 && header.value[0] == "")
  }

  /** List.indexOf: the first position of x, or -1. */
  function IndexOf(xs: seq<string>, x: string): (r: int)
    ensures -1 <= r < |xs|
    ensures r >= 0 ==> xs[r] == x && x !in xs[..r]
    ensures r == -1 <==> x !in xs
  {
    if xs == [] then -1
    else if xs[0] == x then 0
    else
      var t := IndexOf(xs[1..], x);
      assert xs == [xs[0]] + xs[1..];
      if t < 0 then -1
      else
        assert xs[..t + 1] == [xs[0]] + xs[1..][..t];
        t + 1
  }

  /** The mode the constructor chooses; a header it does not accept leaves the field at
      its default 0. */
  function SelectSource(header: Option<seq<string>>, wanted: seq<string>): int
  {
    if !Usable(header) then 0
    else if |wanted| == 1 then IndexOf(header.value, wanted[0])
    else if wanted == header.value then -2
    else -3
  }

  /** The column of each wanted field, for the re-mapping mode. */
  function SelectSources(header: seq<string>, wanted: seq<string>): seq<int>
  {
    seq(|wanted|, i requires 0 <= i < |wanted| => IndexOf(header, wanted[i]))
  }

  /** One cell of a re-mapped row: null for a field the header lacks. */
  function Cell(src: int, line: seq<string>): Option<string>
    requires src < |line|
  {
    if src < 0 then None else Some(line[src])
  }

  /** What moveNext makes current for a row of the right width, or None where it indexes
      outside the row. */
  function Project(source: int, sources: seq<int>, line: seq<string>): Option<Current>
  {
    if source == -3 then
      if forall i :: 0 <= i < |sources| ==> sources[i] < |line| then
        Some(Record(seq(|sources|, i requires 0 <= i < |sources| && sources[i] < |line| => Cell(sources[i], line))))
      else None
    else if source == -2 then Some(Record(seq(|line|, i requires 0 <= i < |line| => Some(line[i]))))
    else if source == -1 then Some(Null)
    else if 0 <= source < |line| then Some(Field(line[source]))
    else None
  }

  /** The position of the first row of width w, or |rows| when there is none. */
  function FirstOfWidth(rows: seq<seq<string>>, w: int): (k: nat)
    ensures k <= |rows|
    ensures forall j :: 0 <= j < k ==> |rows[j]| != w
    ensures k < |rows| ==> |rows[k]| == w
  {
    if rows == [] then 0
    else if |rows[0]| == w then 0
    else 1 + FirstOfWidth(rows[1..], w)
  }

  /** The rows of width w, in order: what the listener receives. */
  function RowsOfWidth(rows: seq<seq<string>>, w: int): seq<seq<string>>
  {
    if rows == [] then []
    else (if |rows[0]| == w then [rows[0]] else []) + RowsOfWidth(rows[1..], w)
  }

  /** The values current() takes over successive moveNext calls, up to the first call
      that returns false or throws. */
  function Drain(source: int, sources: seq<int>, w: int, rows: seq<seq<string>>): seq<Current>
    decreases |rows|
  {
    var k := FirstOfWidth(rows, w);
    if k == |rows| then []
    else match Project(source, sources, rows[k])
      case None => []
      case Some(c) => [c] + Drain(source, sources, w, rows[k + 1..])
  }

  /** SplunkResultIterator over the rows the CSV reader still holds. */
  class SplunkResultIterator {
    var rows: seq<seq<string>>
    var fieldNames: Option<seq<string>>
    var sources: array?<int>
    var source: int
    var current: Current

    ghost predicate Valid()
      reads this
    {
      (fieldNames.None? ==> rows == []) && (source == -3 ==> sources != null)
    }

    /** fieldNames.length, for the width test in moveNext. */
    function Width(): int
      reads this
    {
      if fieldNames.Some? then |fieldNames.value| else 0
    }

    function Sources(): seq<int>
      reads this, sources
    {
      if sources == null then [] else sources[..]
    }

    /** Reads the header and chooses the mode for the wanted fields. */
    constructor (csv: seq<seq<string>>, wanted: seq<string>)
      ensures Valid()
      ensures fieldNames == Header(csv) && rows == (if |csv| == 0 then [] else csv[1..])
      ensures source == SelectSource(fieldNames, wanted) && current == Null
      ensures (sources != null) == (source == -3)
      ensures sources != null ==> fresh(sources) && sources[..] == SelectSources(fieldNames.value, wanted)
    {
      var names := Header(csv);
      var src := 0;
      var srcs: array?<int> := null;
      if Usable(names) {
        var headerList := names.value;
        if |wanted| == 1 {
          src := IndexOf(headerList, wanted[0]);
          srcs := null;
        } else if wanted == headerList {
          src := -2;
        } else {
          src := -3;
          var a := new int[|wanted|];
          var i := 0;
          while i < |wanted|
            invariant 0 <= i <= |wanted|
            invariant forall j :: 0 <= j < i ==> a[j] == IndexOf(headerList, wanted[j])
          {
            a[i] := IndexOf(headerList, wanted[i]);
            i := i + 1;
          }
          srcs := a;
        }
      }
      rows := if |csv| == 0 then [] else csv[1..];
      fieldNames := names;
      source := src;
      sources := srcs;
      current := Null;
    }

    /** The switch on source in moveNext, for one row: the new current value, or None
        where the row is indexed outside its bounds. */
    method Projected(line: seq<string>) returns (p: Option<Current>)
      requires Valid()
      ensures p == Project(source, Sources(), line)
    {
      if source == -3 {
        var mapped := Remap(sources[..], line);
        p := if mapped.Some? then Some(Record(mapped.value)) else None;
      } else if source == -2 {
        p := Some(Record(seq(|line|, i requires 0 <= i < |line| => Some(line[i]))));
      } else if source == -1 {
        p := Some(Null);
      } else if 0 <= source < |line| {
        p := Some(Field(line[source]));
      } else {
        p := None;
      }
    }

    /** Skips rows whose width differs from the header and makes the next one current. */
    method MoveNext() returns (r: Advance)
      requires Valid()
      modifies this
      ensures Valid()
      ensures fieldNames == old(fieldNames) && source == old(source) && sources == old(sources)
      ensures var k := FirstOfWidth(old(rows), Width());
              if k == |old(rows)| then r == Exhausted && rows == [] && current == old(current)
              else
                rows == old(rows)[k + 1..] &&
                match Project(source, Sources(), old(rows)[k])
                case Some(c) => r == Moved && current == c
                case None => r == IndexOutOfBounds && current == old(current)
    {
      var w := Width();
      ghost var k := 0;
      while |rows| > 0
        invariant 0 <= k <= |old(rows)| && rows == old(rows)[k..]
        invariant forall j :: 0 <= j < k ==> |old(rows)[j]| != w
        invariant fieldNames == old(fieldNames) && source == old(source) && sources == old(sources)
        invariant current == old(current)
        decreases |rows|
      {
        var line := rows[0];
        rows := rows[1..];
        k := k + 1;
        if |line| == w {
          assert FirstOfWidth(old(rows), w) == k - 1 by {
            FirstOfWidthUnique(old(rows), w, k - 1);
          }
          var p := Projected(line);
          if p.None? {
            return IndexOutOfBounds;
          }
          current := p.value;
          return Moved;
        }
      }
      FirstOfWidthUnique(old(rows), w, |old(rows)|);
      return Exhausted;
    }
  }

  /** The re-mapping loop of moveNext: each wanted field's cell of the row, null where the
      header lacks the field, or None when a source index falls outside the row. */
  method Remap(srcs: seq<int>, line: seq<string>) returns (mapped: Option<seq<Option<string>>>)
    ensures Project(-3, srcs, line) == if mapped.Some? then Some(Record(mapped.value)) else None
  {
    var cells: seq<Option<string>> := [];
    var i := 0;
    while i < |srcs|
      invariant 0 <= i <= |srcs| && |cells| == i
      invariant forall j :: 0 <= j < i ==> srcs[j] < |line| && cells[j] == Cell(srcs[j], line)
    {
      var source1 := srcs[i];
      if source1 >= |line| {
        return None;
      }
      cells := cells + [Cell(source1, line)];
      i := i + 1;
    }
    assert cells == seq(|srcs|, i requires 0 <= i < |srcs| && srcs[i] < |line| => Cell(srcs[i], line));
    mapped := Some(cells);
  }

  lemma FirstOfWidthUnique(rows: seq<seq<string>>, w: int, k: nat)
    requires k <= |rows| && forall j :: 0 <= j < k ==> |rows[j]| != w
    requires k < |rows| ==> |rows[k]| == w
    ensures FirstOfWidth(rows, w) == k
  {
  }

  /** parseResults: hands the header and then every row of the header's width to the
      listener, and nothing at all when the header is not accepted. */
  method ParseResults(csv: seq<seq<string>>) returns (fieldNames: Option<seq<string>>, delivered: seq<seq<string>>)
    ensures Usable(Header(csv)) ==> fieldNames == Header(csv) && delivered == RowsOfWidth(csv[1..], |csv[0]|)
    ensures !Usable(Header(csv)) ==> fieldNames == None && delivered == []
  {
    fieldNames := None;
    delivered := [];
    var header := Header(csv);
    if Usable(header) {
      fieldNames := header;
      var i := 1;
      while i < |csv|
        invariant 1 <= i <= |csv|
        invariant delivered + RowsOfWidth(csv[i..], |csv[0]|) == RowsOfWidth(csv[1..], |csv[0]|)
      {
        var line := csv[i];
        assert csv[i..] == [line] + csv[i + 1..];
        if |line| == |header.value| {
          delivered := delivered + [line];
        }
        i := i + 1;
      }
    }
  }

  /** The listener receives exactly the rows whose width is the header's. */
  lemma {:induction false} RowsOfWidthMembers(rows: seq<seq<string>>, w: int)
    ensures forall x :: x in RowsOfWidth(rows, w) <==> x in rows && |x| == w
  {
    if rows != [] {
      RowsOfWidthMembers(rows[1..], w);
      assert rows == [rows[0]] + rows[1..];
    }
  }

  /** With an accepted header, no row of the header's width makes moveNext index outside
      the row. */
  lemma ProjectDefined(header: seq<string>, wanted: seq<string>, line: seq<string>)
    requires Usable(Some(header)) && |line| == |header|
    ensures Project(SelectSource(Some(header), wanted), SelectSources(header, wanted), line).Some?
  {
  }

  /** What current() holds for a row of the header's width, mode by mode. */
  lemma ProjectionMeaning(header: seq<string>, wanted: seq<string>, line: seq<string>)
    requires Usable(Some(header)) && |line| == |header|
    ensures var c := Project(SelectSource(Some(header), wanted), SelectSources(header, wanted), line).value;
      && (|wanted| == 1 && wanted[0] in header ==>
            exists j :: 0 <= j < |header| && header[j] == wanted[0] && wanted[0] !in header[..j] && c == Field(line[j]))
      && (|wanted| == 1 && wanted[0] !in header ==> c == Null)
      && (|wanted| != 1 && wanted == header ==>
            (c.Record? && |c.cells| == |line| &&
             forall i :: 0 <= i < |line| ==> c.cells[i] == Some(line[i])))
      && (|wanted| != 1 && wanted != header ==>
            (c.Record? && |c.cells| == |wanted| &&
             forall i :: 0 <= i < |wanted| ==>
               (wanted[i] !in header ==> c.cells[i] == None) &&
               (wanted[i] in header ==>
                  c.cells[i] == Some(line[IndexOf(header, wanted[i])]) &&
                  header[IndexOf(header, wanted[i])] == wanted[i])))
  {
  }

  /** The enumerator yields one value for each row the listener would receive, in the
      same order, each projected from that row. */
  lemma {:induction false} IteratorMatchesListener(header: seq<string>, wanted: seq<string>, rows: seq<seq<string>>)
    requires Usable(Some(header))
    ensures var source := SelectSource(Some(header), wanted);
            var sources := SelectSources(header, wanted);
            var d := Drain(source, sources, |header|, rows);
            var listened := RowsOfWidth(rows, |header|);
            |d| == |listened| &&
            forall i :: 0 <= i < |d| ==> Project(source, sources, listened[i]) == Some(d[i])
    decreases |rows|
  {
    var source := SelectSource(Some(header), wanted);
    var sources := SelectSources(header, wanted);
    var w := |header|;
    var k := FirstOfWidth(rows, w);
    if k < |rows| {
      NextOfWidth(rows, w, k);
      ProjectDefined(header, wanted, rows[k]);
      var c := Project(source, sources, rows[k]).value;
      var tail := Drain(source, sources, w, rows[k + 1..]);
      assert Drain(source, sources, w, rows) == [c] + tail;
      IteratorMatchesListener(header, wanted, rows[k + 1..]);
    } else {
      SkippedRows(rows, w, k);
      assert rows[k..] == [];
    }
  }

  /** The listener's rows from the first of width w on: that row, then those after it. */
  lemma NextOfWidth(rows: seq<seq<string>>, w: int, k: nat)
    requires k < |rows| && |rows[k]| == w && forall j :: 0 <= j < k ==> |rows[j]| != w
    ensures RowsOfWidth(rows, w) == [rows[k]] + RowsOfWidth(rows[k + 1..], w)
  {
    SkippedRows(rows, w, k);
    assert rows[k..][0] == rows[k];
    assert rows[k..][1..] == rows[k + 1..];
  }

  /** Rows before the first of width w contribute nothing to the listener. */
  lemma {:induction false} SkippedRows(rows: seq<seq<string>>, w: int, k: nat)
    requires k <= |rows| && forall j :: 0 <= j < k ==> |rows[j]| != w
    ensures RowsOfWidth(rows, w) == RowsOfWidth(rows[k..], w)
  {
    if k > 0 {
      SkippedRows(rows[1..], w, k - 1);
      assert rows[1..][k - 1..] == rows[k..];
    }
  }

  /** A header that is a single empty name is refused by parseResults, yet the
      enumerator, left with source 0, still yields the only cell of each one-cell row;
      an empty header with an empty row makes moveNext index outside the row. */
  lemma UnusableHeaders(wanted: seq<string>, x: string)
    ensures !Usable(Header([[""], [x]])) && SelectSource(Header([[""], [x]]), wanted) == 0
    ensures Drain(0, [], 1, [[x]]) == [Field(x)]
    ensures !Usable(Header([[], []])) && Project(SelectSource(Header([[], []]), wanted), [], []) == None
  {
  }
}
