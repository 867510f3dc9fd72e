/** Command `config`: the parts of its sub-commands that decide what to do
    from the arguments and the answers typed at the prompts, before the
    configuration is changed and saved. The answers are inputs (a line as
    read, before trimming). */
module ConfigCommand {
  import opened Strings
  import Config

  // ---------------------------------------------------------------------------
  // Numbers as printed in the menus
  // ---------------------------------------------------------------------------

  function DigitChar(d: nat): (c: char)
    requires d < 10
    ensures IsDigit(c) && c as int - '0' as int == d
  {
    ('0' as int + d) as char
  }

  /** The decimal form of `n`, as fmt prints it for %d. */
  function Itoa(n: nat): (s: string)
    ensures s != [] && AllDigits(s) && DigitsValue(s) == n
  {
    if n < 10 then [DigitChar(n)]
    else
      var s := Itoa(n / 10) + [DigitChar(n % 10)];
      assert s[..|s| - 1] == Itoa(n / 10);
      s
  }

  /** strconv.Atoi reads back what %d prints. */
  lemma AtoiItoa(n: nat)
    requires n <= MaxInt64
    ensures Atoi(Itoa(n)) == Some(n)
  {
    var s := Itoa(n);
    assert IsDigit(s[0]);
  }

  /** A string with no white space at its ends is left alone by TrimSpace. */
  lemma TrimSpaceNoEdges(s: string)
    requires s != [] && !IsSpace(s[0]) && !IsSpace(s[|s| - 1])
    ensures TrimSpace(s) == s
  {
    assert TrimLeft(s) == s;
    assert TrimRight(s) == s;
  }

  lemma ItoaNoSpace(n: nat)
    ensures forall c :: c in Itoa(n) ==> IsDigit(c) && !IsSpace(c) && c != ','
  {
    var s := Itoa(n);
    forall c | c in s ensures IsDigit(c) && !IsSpace(c) && c != ',' {
      var i :| 0 <= i < |s| && s[i] == c;
    }
  }

  // ---------------------------------------------------------------------------
  // Selecting a listed item by number
  // ---------------------------------------------------------------------------

  datatype MenuChoice = Cancelled | Selected(index: nat) | InvalidSelection(selection: string)

  /** The answer to a "Select ... number" prompt over `count` listed items,
      numbered from 1: a blank answer, an item's number, or anything else,
      which the command rejects. */
  function SelectNumber(line: string, count: nat): (r: MenuChoice)
    ensures var t := TrimSpace(line);
      && (r == Cancelled <==> t == [])
      && (r.Selected? <==> t != [] && Atoi(t).Some? && 1 <= Atoi(t).value <= count)
      && (r.Selected? ==> r.index < count && r.index + 1 == Atoi(t).value)
      && (r.InvalidSelection? ==> r.selection == t)
  {
    var t := TrimSpace(line);
    if t == [] then Cancelled
    else
      var idx := Atoi(t);
      if idx.None? || idx.value < 1 || idx.value > count then InvalidSelection(t)
      else Selected(idx.value - 1)
  }

  /** Typing the number printed in front of an item selects that item. */
  lemma SelectPrintedNumber(i: nat, count: nat)
    requires i < count <= MaxInt64
    ensures SelectNumber(Itoa(i + 1), count) == Selected(i)
  {
    var s := Itoa(i + 1);
    ItoaNoSpace(i + 1);
    TrimSpaceNoEdges(s);
    AtoiItoa(i + 1);
  }

  // ---------------------------------------------------------------------------
  // The priority order typed at the set-priority prompt
  // ---------------------------------------------------------------------------

  datatype PriorityInput =
    | KeepOrder
    | CancelOrder
    | Order(aliases: seq<string>)
    | BadNumber(part: string)
    | Duplicate(number: int)

  /** A token that names one of `n` listed projects. */
  predicate InRange(part: string, n: nat) {
    Atoi(part).Some? && 1 <= Atoi(part).value <= n
  }

  function Number(part: string): int {
    if Atoi(part).Some? then Atoi(part).value else 0
  }

  /** The position of the first token, from `k` on, that names no project. */
  function FirstBadFrom(parts: seq<string>, n: nat, k: nat): (r: Option<nat>)
    requires k <= |parts|
    ensures r.Some? ==> k <= r.value < |parts| && !InRange(parts[r.value], n)
                        && forall j :: k <= j < r.value ==> InRange(parts[j], n)
    ensures r.None? <==> forall j :: k <= j < |parts| ==> InRange(parts[j], n)
    decreases |parts| - k
  {
    if k == |parts| then None
    else if !InRange(parts[k], n) then Some(k)
    else FirstBadFrom(parts, n, k + 1)
  }

  /** The 0-based project indices the tokens name. */
  function Indices(parts: seq<string>): (sel: seq<int>)
    ensures |sel| == |parts|
  {
    seq(|parts|, i requires 0 <= i < |parts| => Number(parts[i]) - 1)
  }

  /** No index is selected twice. */
  predicate Distinct(s: seq<int>) {
    forall i, j :: 0 <= i < j < |s| ==> s[i] != s[j]
  }

  /** The position of the first index, from `k` on, that was already
      selected before it. */
  function FirstRepeatFrom(s: seq<int>, k: nat): (r: Option<nat>)
    requires k <= |s|
    ensures r.Some? ==> k <= r.value < |s| && s[r.value] in s[..r.value]
                        && forall j :: k <= j < r.value ==> s[j] !in s[..j]
    ensures r.None? <==> forall j :: k <= j < |s| ==> s[j] !in s[..j]
    decreases |s| - k
  {
    if k == |s| then None
    else if s[k] in s[..k] then Some(k)
    else FirstRepeatFrom(s, k + 1)
  }

  lemma NoRepeatIsDistinct(s: seq<int>)
    ensures FirstRepeatFrom(s, 0).None? <==> Distinct(s)
  {
    if Distinct(s) {
      forall j | 0 <= j < |s| ensures s[j] !in s[..j] {
        forall i | 0 <= i < j ensures s[..j][i] != s[j] {
          assert s[..j][i] == s[i];
        }
      }
    }
    if FirstRepeatFrom(s, 0).None? {
      forall i, j | 0 <= i < j < |s| ensures s[i] != s[j] {
        assert s[..j][i] == s[i];
      }
    }
  }

  function AliasesAt(projects: seq<Config.ProjectPath>, sel: seq<int>): (aliases: seq<string>)
    requires forall i :: 0 <= i < |sel| ==> 0 <= sel[i] < |projects|
    ensures |aliases| == |sel|
  {
    seq(|sel|, i requires 0 <= i < |sel| => projects[sel[i]].alias)
  }

  /** What runConfigSetPriority makes of the typed priority order over the
      group's `projects`: keep the current order on a blank answer, cancel on
      "cancel" in any case; otherwise the tokens (separated by white space or
      commas) must each be the number of a listed project, else the first
      bad token is rejected, and no number may repeat, else the first
      repeated number is rejected; the result is the selected projects'
      aliases in the order typed. */
  function PriorityOrder(input: string, projects: seq<Config.ProjectPath>): PriorityInput {
    var t := TrimSpace(input);
    if t == [] then KeepOrder
    else if ToLowerAscii(t) == "cancel" then CancelOrder
    else
      OrderOfTokens(Fields(ReplaceChar(t, ',', ' ')), projects)
  }

  /** The tokens of a typed order, checked and turned into aliases. */
  function OrderOfTokens(parts: seq<string>, projects: seq<Config.ProjectPath>): PriorityInput {
    var bad := FirstBadFrom(parts, |projects|, 0);
    if bad.Some? then BadNumber(parts[bad.value])
    else
      var sel := Indices(parts);
      var dup := FirstRepeatFrom(sel, 0);
      if dup.Some? then Duplicate(sel[dup.value] + 1)
      else Order(AliasesAt(projects, sel))
  }

  /** The parser of runConfigSetPriority's interactive mode. */
  method ParsePriorityOrder(input: string, projects: seq<Config.ProjectPath>) returns (r: PriorityInput)
    ensures r == PriorityOrder(input, projects)
  {
    var t := TrimSpace(input);
    if t == [] {
      return KeepOrder;
    }
    if ToLowerAscii(t) == "cancel" {
      return CancelOrder;
    }
    var parts := Fields(ReplaceChar(t, ',', ' '));
    assert PriorityOrder(input, projects) == OrderOfTokens(parts, projects);
    r := CheckTokens(parts, projects);
  }

  /** The three loops over the tokens: number check, duplicate check, aliases. */
  method CheckTokens(parts: seq<string>, projects: seq<Config.ProjectPath>) returns (r: PriorityInput)
    ensures r == OrderOfTokens(parts, projects)
  {
    var selected, bad := SelectIndices(parts, |projects|);
    if bad.Some? {
      assert FirstBadFrom(parts, |projects|, 0).Some?;
      return BadNumber(bad.value);
    }
    assert FirstBadFrom(parts, |projects|, 0).None? && selected == Indices(parts);
    SelectedInRange(parts, |projects|);
    var dup := FindDuplicate(selected);
    if dup.Some? {
      assert FirstRepeatFrom(selected, 0).Some?;
      return Duplicate(dup.value + 1);
    }
    assert FirstRepeatFrom(selected, 0).None?;
    var aliases := AliasesOf(selected, projects);
    r := Order(aliases);
  }

  /** Tokens that all name listed projects select indices of those projects. */
  lemma SelectedInRange(parts: seq<string>, n: nat)
    requires FirstBadFrom(parts, n, 0).None?
    ensures forall i :: 0 <= i < |parts| ==> 0 <= Indices(parts)[i] < n
  {
    forall i | 0 <= i < |parts| ensures 0 <= Indices(parts)[i] < n {
      assert InRange(parts[i], n);
    }
  }

  lemma FirstBadAt(parts: seq<string>, n: nat, k: nat)
    requires k < |parts| && !InRange(parts[k], n)
    requires forall j :: 0 <= j < k ==> InRange(parts[j], n)
    ensures FirstBadFrom(parts, n, 0) == Some(k)
  {
  }

  /** The loop that turns each token into a 0-based project index. */
  method SelectIndices(parts: seq<string>, n: nat) returns (selected: seq<int>, bad: Option<string>)
    ensures FirstBadFrom(parts, n, 0).Some? ==> bad == Some(parts[FirstBadFrom(parts, n, 0).value])
    ensures FirstBadFrom(parts, n, 0).None? ==> bad.None? && selected == Indices(parts)
  {
    ghost var sel := Indices(parts);
    selected := [];
    for k := 0 to |parts|
      invariant forall j :: 0 <= j < k ==> InRange(parts[j], n)
      invariant selected == sel[..k]
    {
      var idx := Atoi(parts[k]);
      if idx.None? || idx.value < 1 || idx.value > n {
        FirstBadAt(parts, n, k);
        return selected, Some(parts[k]);
      }
      assert sel[k] == Number(parts[k]) - 1 == idx.value - 1;
      selected := selected + [idx.value - 1];
      assert sel[..k + 1] == sel[..k] + [sel[k]];
    }
    assert sel[..|parts|] == sel;
    bad := None;
  }

  /** The loop over the `seen` set: the first index selected a second time. */
  method FindDuplicate(selected: seq<int>) returns (dup: Option<int>)
    ensures FirstRepeatFrom(selected, 0).Some? ==> dup == Some(selected[FirstRepeatFrom(selected, 0).value])
    ensures FirstRepeatFrom(selected, 0).None? ==> dup.None?
  {
    var seen: set<int> := {};
    for k := 0 to |selected|
      invariant FirstRepeatFrom(selected, 0) == FirstRepeatFrom(selected, k)
      invariant forall x :: x in seen <==> x in selected[..k]
    {
      var idx := selected[k];
      if idx in seen {
        return Some(idx);
      }
      seen := seen + {idx};
      assert selected[..k + 1] == selected[..k] + [idx];
    }
    dup := None;
  }

  /** The loop that builds the alias list from the selected indices. */
  method AliasesOf(selected: seq<int>, projects: seq<Config.ProjectPath>) returns (aliases: seq<string>)
    requires forall i :: 0 <= i < |selected| ==> 0 <= selected[i] < |projects|
    ensures aliases == AliasesAt(projects, selected)
  {
    aliases := [];
    for k := 0 to |selected|
      invariant aliases == AliasesAt(projects, selected[..k])
    {
      aliases := aliases + [projects[selected[k]].alias];
    }
    assert selected[..|selected|] == selected;
  }

  // ---------------------------------------------------------------------------
  // What an accepted priority order is
  // ---------------------------------------------------------------------------

  /** The indices below `n`. */
  function Range(n: nat): (r: set<int>)
    ensures forall i :: i in r <==> 0 <= i < n
    ensures |r| == n
  {
    if n == 0 then {} else Range(n - 1) + {n - 1}
  }

  /** Distinct values drawn from `r` are at most as many as `r` holds. */
  lemma {:induction false} DistinctWithin(s: seq<int>, r: set<int>)
    requires Distinct(s)
    requires forall i :: 0 <= i < |s| ==> s[i] in r
    ensures |s| <= |r|
  {
    if s != [] {
      var x := s[|s| - 1];
      var rest := s[..|s| - 1];
      forall i | 0 <= i < |rest| ensures rest[i] in r - {x} {
        assert rest[i] == s[i];
      }
      DistinctWithin(rest, r - {x});
      assert r == (r - {x}) + {x};
    }
  }

  /** `aliases` names listed projects only, at most as many as are listed,
      and all of them when it is as long as the list. */
  predicate IsSelection(aliases: seq<string>, projects: seq<Config.ProjectPath>) {
    && |aliases| <= |projects|
    && (forall i :: 0 <= i < |aliases| ==> exists k :: 0 <= k < |projects| && aliases[i] == projects[k].alias)
    && (|aliases| == |projects| ==> forall k :: 0 <= k < |projects| ==> projects[k].alias in aliases)
  }

  /** Every project named by an accepted order is named once, so an order
      lists at most all the projects, and one that is as long as the list
      of projects names every project. */
  lemma OrderIsSelection(input: string, projects: seq<Config.ProjectPath>)
    ensures var r := PriorityOrder(input, projects);
      r.Order? ==> IsSelection(r.aliases, projects)
  {
    var t := TrimSpace(input);
    if t != [] && ToLowerAscii(t) != "cancel" {
      var parts := Fields(ReplaceChar(t, ',', ' '));
      assert PriorityOrder(input, projects) == OrderOfTokens(parts, projects);
      TokensSelection(parts, projects);
    }
  }

  lemma TokensSelection(parts: seq<string>, projects: seq<Config.ProjectPath>)
    ensures var r := OrderOfTokens(parts, projects);
      r.Order? ==> IsSelection(r.aliases, projects)
  {
    var r := OrderOfTokens(parts, projects);
    if r.Order? {
      var sel := Indices(parts);
      SelectedInRange(parts, |projects|);
      NoRepeatIsDistinct(sel);
      assert r.aliases == AliasesAt(projects, sel);
      DistinctWithin(sel, Range(|projects|));
      forall i | 0 <= i < |r.aliases| ensures exists k :: 0 <= k < |projects| && r.aliases[i] == projects[k].alias {
        assert r.aliases[i] == projects[sel[i]].alias;
      }
      if |r.aliases| == |projects| {
        forall k | 0 <= k < |projects| ensures projects[k].alias in r.aliases {
          SelectsAll(sel, |projects|, k);
          var i :| 0 <= i < |sel| && sel[i] == k;
          assert r.aliases[i] == projects[k].alias;
        }
      }
    }
  }

  /** `n` distinct indices below `n` include every index below `n`. */
  lemma SelectsAll(s: seq<int>, n: nat, k: int)
    requires Distinct(s) && |s| == n && 0 <= k < n
    requires forall i :: 0 <= i < |s| ==> 0 <= s[i] < n
    ensures k in s
  {
    if k !in s {
      forall i | 0 <= i < |s| ensures s[i] in Range(n) - {k} {
      }
      assert Range(n) == (Range(n) - {k}) + {k};
      DistinctWithin(s, Range(n) - {k});
    }
  }

  /** Typing the printed numbers of some projects, separated by commas,
      gives exactly those projects' aliases, in the order typed. */
  lemma TypedOrder(order: seq<nat>, projects: seq<Config.ProjectPath>)
    requires order != [] && |projects| <= MaxInt64
    requires forall i :: 0 <= i < |order| ==> order[i] < |projects|
    requires forall i, j :: 0 <= i < j < |order| ==> order[i] != order[j]
    ensures PriorityOrder(NumberList(order), projects) ==
            Order(seq(|order|, i requires 0 <= i < |order| => projects[order[i]].alias))
  {
    var input := NumberList(order);
    TypedInput(order);
    assert PriorityOrder(input, projects) == OrderOfTokens(Numerals(order), projects);
    TypedTokens(order, projects);
  }

  /** A comma-separated list of numbers is neither blank nor "cancel", and
      its tokens are the numbers. */
  lemma TypedInput(order: seq<nat>)
    requires order != []
    ensures var input := NumberList(order);
      && TrimSpace(input) == input && input != []
      && ToLowerAscii(input) != "cancel"
      && Fields(ReplaceChar(input, ',', ' ')) == Numerals(order)
  {
    TypedInputEdges(order);
    StartsWithDigit(NumberList(order));
    TypedInputFields(order);
  }

  lemma TypedInputEdges(order: seq<nat>)
    requires order != []
    ensures var input := NumberList(order);
      input != [] && IsDigit(input[0]) && TrimSpace(input) == input
  {
    var words := Numerals(order);
    NumeralsShape(order);
    assert words[0][0] in words[0];
    assert words[|words| - 1][|words[|words| - 1]| - 1] in words[|words| - 1];
    JoinEdges(words, ',');
    TrimSpaceNoEdges(NumberList(order));
  }

  lemma TypedInputFields(order: seq<nat>)
    ensures Fields(ReplaceChar(NumberList(order), ',', ' ')) == Numerals(order)
  {
    var words := Numerals(order);
    NumeralsShape(order);
    ReplaceCommas(words);
    FieldsOfJoin(words);
  }

  lemma StartsWithDigit(s: string)
    requires s != [] && IsDigit(s[0])
    ensures ToLowerAscii(s) != "cancel"
  {
    assert ToLowerAscii(s)[0] == s[0];
  }

  lemma TypedTokens(order: seq<nat>, projects: seq<Config.ProjectPath>)
    requires |projects| <= MaxInt64
    requires forall i :: 0 <= i < |order| ==> order[i] < |projects|
    requires forall i, j :: 0 <= i < j < |order| ==> order[i] != order[j]
    ensures OrderOfTokens(Numerals(order), projects) ==
            Order(seq(|order|, i requires 0 <= i < |order| => projects[order[i]].alias))
  {
    var words := Numerals(order);
    var n := |projects|;
    forall j | 0 <= j < |words| ensures InRange(words[j], n) && Number(words[j]) - 1 == order[j] {
      AtoiItoa(order[j] + 1);
    }
    var sel := Indices(words);
    assert sel == order;
    NoRepeatIsDistinct(sel);
  }

  function Numerals(order: seq<nat>): (ws: seq<string>)
    ensures |ws| == |order|
  {
    seq(|order|, i requires 0 <= i < |order| => Itoa(order[i] + 1))
  }

  /** The numbers of `order` (0-based) as typed: 1-based, comma-separated. */
  function NumberList(order: seq<nat>): string {
    JoinWith(Numerals(order), ',')
  }

  lemma NumeralsShape(order: seq<nat>)
    ensures forall i :: 0 <= i < |order| ==>
              (Numerals(order)[i] != [] && forall c :: c in Numerals(order)[i] ==> IsDigit(c) && !IsSpace(c) && c != ',')
  {
    forall i | 0 <= i < |order|
      ensures forall c :: c in Numerals(order)[i] ==> IsDigit(c) && !IsSpace(c) && c != ','
    {
      ItoaNoSpace(order[i] + 1);
    }
  }

  /** Joined words start with the first word's first character and end with
      the last word's last character. */
  lemma {:induction false} JoinEdges(ws: seq<string>, sep: char)
    requires ws != [] && forall i :: 0 <= i < |ws| ==> ws[i] != []
    ensures var s := JoinWith(ws, sep);
      s != [] && s[0] == ws[0][0] && s[|s| - 1] == ws[|ws| - 1][|ws[|ws| - 1]| - 1]
  {
    if |ws| > 1 {
      JoinEdges(ws[1..], sep);
    }
  }

  /** Replacing the commas of comma-joined words without commas by spaces
      gives the space-joined words. */
  lemma {:induction false} ReplaceCommas(ws: seq<string>)
    requires forall i :: 0 <= i < |ws| ==> ',' !in ws[i]
    ensures ReplaceChar(JoinWith(ws, ','), ',', ' ') == JoinWith(ws, ' ')
  {
    if |ws| == 1 {
      KeepsWord(ws[0]);
    } else if |ws| > 1 {
      var w, rest := ws[0], JoinWith(ws[1..], ',');
      ReplaceCommas(ws[1..]);
      KeepsWord(w);
      ReplaceConcat(w + [','], rest, ',', ' ');
      ReplaceConcat(w, [','], ',', ' ');
      assert ReplaceChar([','], ',', ' ') == [' '];
      assert ReplaceChar(w + [','], ',', ' ') == w + [' '];
    }
  }

  lemma {:induction false} KeepsWord(w: string)
    requires ',' !in w
    ensures ReplaceChar(w, ',', ' ') == w
  {
    var r := ReplaceChar(w, ',', ' ');
    forall i | 0 <= i < |w| ensures r[i] == w[i] {
    }
  }

  lemma {:induction false} ReplaceConcat(a: string, b: string, from: char, to: char)
    ensures ReplaceChar(a + b, from, to) == ReplaceChar(a, from, to) + ReplaceChar(b, from, to)
  {
    var s := a + b;
    var r, ra, rb := ReplaceChar(s, from, to), ReplaceChar(a, from, to), ReplaceChar(b, from, to);
    forall i | 0 <= i < |s| ensures r[i] == (ra + rb)[i] {
      if i < |a| {
        assert s[i] == a[i];
        assert (ra + rb)[i] == ra[i];
      } else {
        assert s[i] == b[i - |a|];
        assert (ra + rb)[i] == rb[i - |a|];
      }
    }
  }

  /** The fields of space-joined words are the words. */
  lemma {:induction false} FieldsOfJoin(ws: seq<string>)
    requires forall i :: 0 <= i < |ws| ==> ws[i] != [] && forall c :: c in ws[i] ==> !IsSpace(c)
    ensures Fields(JoinWith(ws, ' ')) == ws
  {
    if |ws| == 1 {
      FieldsOfWord(ws[0], []);
      assert ws[0] + [] == ws[0];
    } else if |ws| > 1 {
      var w, rest := ws[0], JoinWith(ws[1..], ' ');
      var tail := [' '] + rest;
      assert JoinWith(ws, ' ') == w + tail;
      FieldsOfJoin(ws[1..]);
      assert IsSpace(tail[0]);
      FieldsOfWord(w, tail);
      assert tail[1..] == rest;
      assert Fields(tail) == Fields(rest);
    }
  }

  /** A word followed by white space or by nothing is the first field. */
  lemma FieldsOfWord(w: string, tail: string)
    requires w != [] && forall c :: c in w ==> !IsSpace(c)
    requires tail == [] || IsSpace(tail[0])
    ensures Fields(w + tail) == [w] + Fields(tail)
  {
    WordLengthOf(w, tail);
    assert (w + tail)[..|w|] == w;
    assert (w + tail)[|w|..] == tail;
  }

  lemma {:induction false} WordLengthOf(w: string, tail: string)
    requires forall c :: c in w ==> !IsSpace(c)
    requires tail == [] || IsSpace(tail[0])
    ensures WordLength(w + tail) == |w|
  {
    if w != [] {
      assert (w + tail)[1..] == w[1..] + tail;
      assert w[0] in w;
      WordLengthOf(w[1..], tail);
    } else {
      assert w + tail == tail;
    }
  }

  /** Only commas typed: accepted as an empty order, unlike a blank answer,
      which keeps the current order. */
  lemma OnlyCommas(projects: seq<Config.ProjectPath>)
    ensures PriorityOrder(",", projects) == Order([])
  {
    var t := TrimSpace(",");
    TrimSpaceNoEdges(",");
    assert ToLowerAscii(t) != "cancel" by {
      assert |ToLowerAscii(t)| == 1;
    }
    assert PriorityOrder(",", projects) == OrderOfTokens(Fields(ReplaceChar(t, ',', ' ')), projects);
    CommaHasNoFields();
    NoTokens(projects);
  }

  lemma CommaHasNoFields()
    ensures Fields(ReplaceChar(",", ',', ' ')) == []
  {
    var s := ReplaceChar(",", ',', ' ');
    assert s == [' '];
    assert s[1..] == [];
  }

  lemma NoTokens(projects: seq<Config.ProjectPath>)
    ensures OrderOfTokens([], projects) == Order([])
  {
    assert FirstBadFrom([], |projects|, 0).None?;
    assert FirstRepeatFrom(Indices([]), 0).None?;
    assert AliasesAt(projects, []) == [];
  }

  // ---------------------------------------------------------------------------
  // Argument counts
  // ---------------------------------------------------------------------------

  datatype PriorityMode =
    | PriorityInteractive
    | PriorityFromArgs(group: string, aliases: seq<string>)
    | TooFewArguments

  /** runConfigSetPriority's dispatch on the number of arguments: none is
      interactive, one is an error, and otherwise the first names the group
      and the rest, in order, are the aliases. */
  function SetPriorityMode(args: seq<string>): (r: PriorityMode)
    ensures r == PriorityInteractive <==> |args| == 0
    ensures r == TooFewArguments <==> |args| == 1
    ensures r.PriorityFromArgs? ==> [r.group] + r.aliases == args && r.aliases != []
  {
    if |args| == 0 then PriorityInteractive
    else if |args| < 2 then TooFewArguments
    else
      assert [args[0]] + args[1..] == args;
      PriorityFromArgs(args[0], args[1..])
  }

  datatype AddMode =
    | AddInteractive
    | AddFromArgs(group: string, alias: string, path: string, dryRun: bool)
    | WrongArgumentCount(got: nat)

  /** runConfigAddProject's dispatch on the number of arguments: none is
      interactive, exactly three are the group, the alias and the path, and
      any other count is an error that reports the count. */
  function AddProjectArgs(args: seq<string>, dryRun: bool): (r: AddMode)
    ensures r == AddInteractive <==> |args| == 0
    ensures r.WrongArgumentCount? <==> |args| != 0 && |args| != 3
    ensures r.WrongArgumentCount? ==> r.got == |args|
    ensures r.AddFromArgs? ==> [r.group, r.alias, r.path] == args && r.dryRun == dryRun
  {
    if |args| == 0 then AddInteractive
    else if |args| == 3 then AddFromArgs(args[0], args[1], args[2], dryRun)
    else WrongArgumentCount(|args|)
  }

  /** What add-project does once its inputs are known. */
  datatype AddOutcome =
    | AddRejected(message: string)
    | DryRunReport(createGroup: bool, group: string, alias: string, path: string)
    | AddToGroup(createGroup: bool, group: string, alias: string, path: string)

  /** runConfigAddProject in argument mode: a dry run only reports. */
  function AddFromArguments(group: string, alias: string, path: string, dryRun: bool): (r: AddOutcome)
    ensures dryRun <==> r.DryRunReport?
    ensures !r.AddRejected? && !r.createGroup && r.group == group && r.alias == alias && r.path == path
  {
    if dryRun then DryRunReport(false, group, alias, path) else AddToGroup(false, group, alias, path)
  }

  /** runConfigAddProject in interactive mode over the sorted `groupNames`:
      a blank selection creates the group named next, which must not be
      blank; otherwise the selection must be a listed number. The alias and
      the path must not be blank, and a dry run only reports. Every answer
      is trimmed. */
  function AddInteractively(groupNames: seq<string>, selection: string, newGroup: string,
                            alias: string, path: string, dryRun: bool): (r: AddOutcome)
    ensures var sel := SelectNumber(selection, |groupNames|);
      && (sel.InvalidSelection? ==> r.AddRejected?)
      && (sel == Cancelled && TrimSpace(newGroup) == [] ==> r.AddRejected?)
      && (!r.AddRejected? ==>
            && r.alias == TrimSpace(alias) != [] && r.path == TrimSpace(path) != []
            && (r.createGroup <==> sel == Cancelled)
            && (r.createGroup ==> r.group == TrimSpace(newGroup) != [])
            && (!r.createGroup ==> sel.Selected? && r.group == groupNames[sel.index])
            && (r.DryRunReport? <==> dryRun))
    ensures TrimSpace(alias) == [] || TrimSpace(path) == [] ==> r.AddRejected?
  {
    var sel := SelectNumber(selection, |groupNames|);
    if sel.InvalidSelection? then AddRejected("invalid selection: " + sel.selection)
    else if sel == Cancelled && TrimSpace(newGroup) == [] then AddRejected("group name cannot be empty")
    else
      var createGroup := sel == Cancelled;
      var group := if createGroup then TrimSpace(newGroup) else groupNames[sel.index];
      var a := TrimSpace(alias);
      var p := TrimSpace(path);
      if a == [] then AddRejected("project alias cannot be empty")
      else if p == [] then AddRejected("project path cannot be empty")
      else if dryRun then DryRunReport(createGroup, group, a, p)
      else AddToGroup(createGroup, group, a, p)
  }
}
