/**
 * The symbol table of the first assembler pass: label addresses and the
 * source-line ranges of the code and data sections.
 */
module SymbolTable {
  import opened Wrappers
  import opened ErrHandler

  datatype Section = Code | Data

  /** A section's `(start, end)` line bounds, each possibly unset. */
  datatype Bounds = Bounds(start: Option<nat>, end: Option<nat>)

  const Undeclared: Bounds := Bounds(None, None)

  /** A half-open line range `start..end`. */
  datatype Range = Range(start: nat, end: nat) {
    /** `Range::contains`. */
    predicate Contains(i: nat) {
      start <= i < end
    }
  }

  /** The bounds of both sections together. */
  datatype Layout = Layout(code: Bounds, data: Bounds)

  const NoSections: Layout := Layout(Undeclared, Undeclared)

  /** `code_range` / `data_range`: a range exactly when both bounds are set. */
  function RangeOf(b: Bounds): (r: Option<Range>)
    ensures r.Some? <==> b.start.Some? && b.end.Some?
    ensures r.Some? ==> r.value == Range(b.start.value, b.end.value)
  {
    match b
    case Bounds(Some(start), Some(end)) => Some(Range(start, end))
    case _ => None
  }

  predicate NeitherDeclared(l: Layout) {
    l.code == Undeclared && l.data == Undeclared
  }

  /**
   * The effect of a `.section` directive on line `line`: the first directive
   * opens its own section only; any later one opens its own section and closes
   * the other one at the same line.
   */
  function UpdateLayout(l: Layout, s: Section, line: nat): (r: Layout)
    ensures s == Code ==> r.code == Bounds(Some(line), l.code.end)
    ensures s == Data ==> r.data == Bounds(Some(line), l.data.end)
    ensures NeitherDeclared(l) ==> (s == Code ==> r.data == l.data) && (s == Data ==> r.code == l.code)
    ensures !NeitherDeclared(l) ==>
              (s == Code ==> r.data == Bounds(l.data.start, Some(line)))
              && (s == Data ==> r.code == Bounds(l.code.start, Some(line)))
  {
    match s
    case Code =>
      if NeitherDeclared(l) then l.(code := l.code.(start := Some(line)))
      else Layout(l.code.(start := Some(line)), l.data.(end := Some(line)))
    case Data =>
      if NeitherDeclared(l) then l.(data := l.data.(start := Some(line)))
      else Layout(l.code.(end := Some(line)), l.data.(start := Some(line)))
  }

  /**
   * `check_sections_valid` after `n` lines: closes the section left open at the
   * end of the file, accepts a code section alone, and rejects a data section
   * alone or no section at all. Any other shape is accepted unchanged.
   */
  function CheckLayout(l: Layout, n: nat): (r: Result<Layout, LineError>)
    ensures r == Failure(NoSectionDecl) <==> NeitherDeclared(l)
    ensures r == Failure(OnlyDataSection) <==> l.code == Undeclared && l.data == Bounds(l.data.start, None) && l.data.start.Some?
    ensures r.Success? ==> r.value.code.start == l.code.start && r.value.data.start == l.data.start
  {
    var c, d := l.code, l.data;
    if c.start.Some? && c.end.Some? && d.start.Some? && d.end.None? && c.end == d.start then
      // code declared first
      Success(l.(data := d.(end := Some(n))))
    else if c.start.Some? && c.end.None? && d.start.Some? && d.end.Some? && c.start == d.end then
      // data declared first
      Success(l.(code := c.(end := Some(n))))
    else if c.start.Some? && c.end.None? && d == Undeclared then
      // only a code section
      Success(l.(code := c.(end := Some(n))))
    else if c == Undeclared && d.start.Some? && d.end.None? then
      Failure(OnlyDataSection)
    else if c == Undeclared && d == Undeclared then
      Failure(NoSectionDecl)
    else
      Success(l)
  }

  /** The layout after a sequence of directives (section, line), in order. */
  function Directives(l: Layout, ds: seq<(Section, nat)>): Layout
    decreases |ds|
  {
    if ds == [] then l else Directives(UpdateLayout(l, ds[0].0, ds[0].1), ds[1..])
  }

  /**
   * What every sequence of directives keeps: a set code end is the data
   * start, and a set data end is the code start.
   */
  predicate Linked(l: Layout) {
    (l.code.end.Some? ==> l.code.end == l.data.start)
    && (l.data.end.Some? ==> l.data.end == l.code.start)
  }

  lemma {:induction false} DirectivesLinked(l: Layout, ds: seq<(Section, nat)>)
    requires Linked(l)
    ensures Linked(Directives(l, ds))
    decreases |ds|
  {
    if ds != [] {
      DirectivesLinked(UpdateLayout(l, ds[0].0, ds[0].1), ds[1..]);
    }
  }

  /** One more directive at the end is one more update of the layout. */
  lemma {:induction false} DirectivesAppend(l: Layout, ds: seq<(Section, nat)>, s: Section, line: nat)
    ensures Directives(l, ds + [(s, line)]) == UpdateLayout(Directives(l, ds), s, line)
    decreases |ds|
  {
    if ds != [] {
      assert (ds + [(s, line)])[1..] == ds[1..] + [(s, line)];
      DirectivesAppend(UpdateLayout(l, ds[0].0, ds[0].1), ds[1..], s, line);
    }
  }

  /**
   * Whatever the directives, a successful check that yields both ranges yields
   * adjacent ones: the code range ends where the data range starts, or the
   * data range ends where the code range starts.
   */
  lemma SectionsAdjacent(ds: seq<(Section, nat)>, n: nat)
    requires CheckLayout(Directives(NoSections, ds), n).Success?
    requires var l := CheckLayout(Directives(NoSections, ds), n).value;
             RangeOf(l.code).Some? && RangeOf(l.data).Some?
    ensures var l := CheckLayout(Directives(NoSections, ds), n).value;
            l.code.end == l.data.start || l.data.end == l.code.start
  {
    DirectivesLinked(NoSections, ds);
  }

  /** Code declared on line c, then data on line d: code is c..d and data is d..n. */
  lemma CodeThenData(c: nat, d: nat, n: nat)
    ensures var l := CheckLayout(Directives(NoSections, [(Code, c), (Data, d)]), n);
            l.Success? && RangeOf(l.value.code) == Some(Range(c, d)) && RangeOf(l.value.data) == Some(Range(d, n))
  {
    var l1 := UpdateLayout(NoSections, Code, c);
    var l2 := UpdateLayout(l1, Data, d);
    assert Directives(NoSections, [(Code, c), (Data, d)]) == Directives(l1, [(Data, d)]);
    assert Directives(l1, [(Data, d)]) == Directives(l2, []);
  }

  /** Data declared on line d, then code on line c: data is d..c and code is c..n. */
  lemma DataThenCode(d: nat, c: nat, n: nat)
    ensures var l := CheckLayout(Directives(NoSections, [(Data, d), (Code, c)]), n);
            l.Success? && RangeOf(l.value.data) == Some(Range(d, c)) && RangeOf(l.value.code) == Some(Range(c, n))
  {
    var l1 := UpdateLayout(NoSections, Data, d);
    var l2 := UpdateLayout(l1, Code, c);
    assert Directives(NoSections, [(Data, d), (Code, c)]) == Directives(l1, [(Code, c)]);
    assert Directives(l1, [(Code, c)]) == Directives(l2, []);
  }

  /** A code section alone runs to the end of the file and there is no data range. */
  lemma CodeOnly(c: nat, n: nat)
    ensures var l := CheckLayout(Directives(NoSections, [(Code, c)]), n);
            l.Success? && RangeOf(l.value.code) == Some(Range(c, n)) && RangeOf(l.value.data) == None
  {
    assert Directives(NoSections, [(Code, c)]) == Directives(UpdateLayout(NoSections, Code, c), []);
  }

  /** A data section alone is rejected. */
  lemma DataOnly(d: nat, n: nat)
    ensures CheckLayout(Directives(NoSections, [(Data, d)]), n) == Failure(OnlyDataSection)
  {
    assert Directives(NoSections, [(Data, d)]) == Directives(UpdateLayout(NoSections, Data, d), []);
  }

  /**
   * A second code directive, with no data directive, closes the (undeclared)
   * data section instead of the code section: the check accepts the file but
   * no line is in a code range.
   */
  lemma RepeatedCodeDirective(c1: nat, c2: nat, n: nat)
    ensures var l := CheckLayout(Directives(NoSections, [(Code, c1), (Code, c2)]), n);
            l.Success? && RangeOf(l.value.code) == None && RangeOf(l.value.data) == None
  {
    var l1 := UpdateLayout(NoSections, Code, c1);
    assert Directives(NoSections, [(Code, c1), (Code, c2)]) == Directives(l1, [(Code, c2)]);
    assert Directives(l1, [(Code, c2)]) == Directives(UpdateLayout(l1, Code, c2), []);
  }

  /** `Symbols`: the label table and the two section bounds, updated in place. */
  class Symbols {
    var labels: map<string, nat>
    var codeSection: Bounds
    var dataSection: Bounds

    /** `Symbols::new`: no labels, no section declared. */
    constructor ()
      ensures labels == map[] && codeSection == Undeclared && dataSection == Undeclared
    {
      labels := map[];
      codeSection := Undeclared;
      dataSection := Undeclared;
    }

    function Sections(): Layout
      reads this
    {
      Layout(codeSection, dataSection)
    }

    /** `code_range`. */
    function CodeRange(): (r: Option<Range>)
      reads this
      ensures r.Some? <==> codeSection.start.Some? && codeSection.end.Some?
      ensures r.Some? ==> r.value == Range(codeSection.start.value, codeSection.end.value)
    {
      RangeOf(codeSection)
    }

    /** `data_range`. */
    function DataRange(): (r: Option<Range>)
      reads this
      ensures r.Some? <==> dataSection.start.Some? && dataSection.end.Some?
      ensures r.Some? ==> r.value == Range(dataSection.start.value, dataSection.end.value)
    {
      RangeOf(dataSection)
    }

    /** `update_sections`: records a directive on line `line`; the labels are untouched. */
    method UpdateSections(s: Section, line: nat)
      modifies this
      ensures Sections() == UpdateLayout(old(Sections()), s, line)
      ensures labels == old(labels)
    {
      var neitherDeclared := codeSection == Undeclared && dataSection == Undeclared;
      match s {
        case Code =>
          if neitherDeclared {
            codeSection := codeSection.(start := Some(line));
          } else {
            codeSection := codeSection.(start := Some(line));
            dataSection := dataSection.(end := Some(line));
          }
        case Data =>
          if neitherDeclared {
            dataSection := dataSection.(start := Some(line));
          } else {
            dataSection := dataSection.(start := Some(line));
            codeSection := codeSection.(end := Some(line));
          }
      }
    }

    /**
     * `check_sections_valid(line_num)`: on success the bounds are those of
     * CheckLayout; on failure they are unchanged. The labels are untouched.
     */
    method CheckSectionsValid(lineNum: nat) returns (r: Result<(), LineError>)
      modifies this
      ensures var expected := CheckLayout(old(Sections()), lineNum);
              (r.Success? <==> expected.Success?)
              && (r.Success? ==> Sections() == expected.value)
              && (r.Failure? ==> r.error == expected.error && Sections() == old(Sections()))
      ensures labels == old(labels)
    {
      var c, d := codeSection, dataSection;
      if c.start.Some? && c.end.Some? && d.start.Some? && d.end.None? && c.end == d.start {
        dataSection := dataSection.(end := Some(lineNum));
        r := Success(());
      } else if c.start.Some? && c.end.None? && d.start.Some? && d.end.Some? && c.start == d.end {
        codeSection := codeSection.(end := Some(lineNum));
        r := Success(());
      } else if c.start.Some? && c.end.None? && d == Undeclared {
        codeSection := codeSection.(end := Some(lineNum));
        r := Success(());
      } else if c == Undeclared && d.start.Some? && d.end.None? {
        r := Failure(OnlyDataSection);
      } else if c == Undeclared && d == Undeclared {
        r := Failure(NoSectionDecl);
      } else {
        r := Success(());
      }
    }
  }
}
