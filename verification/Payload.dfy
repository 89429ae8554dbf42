/** Array payloads: joining message bodies, and reading them back. */
module Payload {
  /** Where a JSON reader stands: nesting depth, inside a string, after a backslash. */
  datatype Scan = Scan(depth: int, quoted: bool, escaped: bool)

  const TOP := Scan(0, false, false)

  function Advance(s: Scan, c: char): Scan {
    if s.escaped then s.(escaped := false)
    else if s.quoted then
      if c == '\\' then s.(escaped := true) else if c == '"' then s.(quoted := false) else s
    else if c == '"' then s.(quoted := true)
    else if c == '[' || c == '{' then s.(depth := s.depth + 1)
    else if c == ']' || c == '}' then s.(depth := s.depth - 1)
    else s
  }

  function State(text: string): Scan {
    if text == [] then TOP else Advance(State(text[..|text| - 1]), text[|text| - 1])
  }

  /** A body that keeps its commas inside brackets or strings and closes what it opens. */
  predicate Closed(v: string) {
    State(v) == TOP && forall k :: 0 <= k < |v| ==> !(State(v[..k]) == TOP && v[k] == ',')
  }

  /** The parts between the commas that stand at the top level. */
  function Pieces(text: string): (r: seq<string>)
    ensures |r| > 0
  {
    if text == [] then [[]]
    else
      var before, c := text[..|text| - 1], text[|text| - 1];
      var parts := Pieces(before);
      if State(before) == TOP && c == ',' then parts + [[]]
      else parts[..|parts| - 1] + [parts[|parts| - 1] + [c]]
  }

  function Join(values: seq<string>, sep: char): string {
    if |values| == 0 then []
    else if |values| == 1 then values[0]
    else Join(values[..|values| - 1], sep) + [sep] + values[|values| - 1]
  }

  function Array(values: seq<string>): string { ['['] + Join(values, ',') + [']'] }

  function Elements(payload: string): seq<string>
    requires |payload| >= 2
  {
    Pieces(payload[1..|payload| - 1])
  }

  lemma StateSnoc(text: string, c: char)
    ensures State(text + [c]) == Advance(State(text), c)
    ensures Pieces(text + [c]) ==
            var parts := Pieces(text);
            if State(text) == TOP && c == ',' then parts + [[]]
            else parts[..|parts| - 1] + [parts[|parts| - 1] + [c]]
  {
    assert (text + [c])[..|text|] == text;
  }

  /** Reading on from the top level, a closed body extends the last part by itself. */
  lemma {:induction false} BodyExtends(text: string, v: string, n: nat)
    requires State(text) == TOP && n <= |v|
    requires forall k :: 0 <= k < n ==> !(State(v[..k]) == TOP && v[k] == ',')
    ensures State(text + v[..n]) == State(v[..n])
    ensures var parts := Pieces(text);
            Pieces(text + v[..n]) == parts[..|parts| - 1] + [parts[|parts| - 1] + v[..n]]
  {
    hide State, Pieces;
    var parts := Pieces(text);
    var head, last := parts[..|parts| - 1], parts[|parts| - 1];
    if n == 0 {
      assert v[..0] == [] && text + [] == text && last + [] == last;
      EmptyState();
    } else {
      BodyExtends(text, v, n - 1);
      var w, c := v[..n - 1], v[n - 1];
      assert v[..n] == w + [c] && text + v[..n] == (text + w) + [c];
      StateSnoc(text + w, c);
      StateSnoc(w, c);
      assert last + w + [c] == last + (w + [c]);
    }
  }

  lemma EmptyState()
    ensures State([]) == TOP && Pieces([]) == [[]]
  {
  }

  /** Joined bodies are told apart again. */
  lemma {:induction false} JoinSplits(values: seq<string>)
    requires values != [] && forall i :: 0 <= i < |values| ==> Closed(values[i])
    ensures State(Join(values, ',')) == TOP && Pieces(Join(values, ',')) == values
  {
    hide State, Pieces;
    var n := |values| - 1;
    var last := values[n];
    assert last[..|last|] == last;
    assert Closed(last);
    EmptyState();
    if n == 0 {
      BodyExtends([], last, |last|);
      assert [] + last == last;
      assert Pieces(last) == [last] == values;
    } else {
      var before := values[..n];
      JoinSplits(before);
      StateSnoc(Join(before, ','), ',');
      var text := Join(before, ',') + [','];
      assert Advance(TOP, ',') == TOP;
      assert Pieces(text) == before + [[]];
      BodyExtends(text, last, |last|);
      assert [] + last == last;
      assert (before + [[]])[..n] == before;
      assert before + [last] == values;
    }
  }

  /** A payload gives back the bodies it was built from. */
  lemma ArrayElements(values: seq<string>)
    requires values != [] && forall i :: 0 <= i < |values| ==> Closed(values[i])
    ensures Elements(Array(values)) == values
  {
    JoinSplits(values);
    var payload := Array(values);
    assert payload[1..|payload| - 1] == Join(values, ',');
  }

  lemma JoinSnoc(values: seq<string>, v: string, sep: char)
    ensures Join(values + [v], sep) == if values == [] then v else Join(values, sep) + [sep] + v
  {
    assert (values + [v])[..|values|] == values;
  }

  // ---- Message bodies are closed ----

  /** A text that closes what it opens, and opens before it closes. */
  ghost predicate WellNested(text: string) {
    State(text) == TOP && forall k :: 0 <= k <= |text| ==> State(text[..k]).depth >= 0
  }

  lemma {:induction false} StateConcat(a: string, b: string)
    requires State(a) == TOP
    ensures State(a + b) == State(b)
  {
    if b == [] {
      assert a + b == a;
    } else {
      var n := |b| - 1;
      StateConcat(a, b[..n]);
      assert (a + b)[..|a + b| - 1] == a + b[..n];
    }
  }

  lemma NestedConcat(a: string, b: string)
    requires WellNested(a) && WellNested(b)
    ensures WellNested(a + b)
  {
    StateConcat(a, b);
    forall k | 0 <= k <= |a + b|
      ensures State((a + b)[..k]).depth >= 0
    {
      if k <= |a| {
        assert (a + b)[..k] == a[..k];
      } else {
        StateConcat(a, b[..k - |a|]);
        assert (a + b)[..k] == a + b[..k - |a|];
      }
    }
  }

  /** A character with no meaning of its own: colons, commas, digits, letters, spaces. */
  lemma PlainNested(c: char)
    requires c !in ['"', '[', ']', '{', '}']
    ensures WellNested([c])
  {
    assert [c][..0] == [] && [c][..1] == [c];
    StateSnoc([], c);
    assert [] + [c] == [c];
  }

  /** The text of a JSON string, with quotes and backslashes escaped. */
  function Escape(text: string): string {
    if text == [] then []
    else
      var c := text[|text| - 1];
      Escape(text[..|text| - 1]) + if c == '"' || c == '\\' then ['\\', c] else [c]
  }

  lemma {:induction false} Quoted(text: string)
    ensures State(['"'] + Escape(text)) == Scan(0, true, false)
    ensures forall k :: 0 <= k <= |['"'] + Escape(text)| ==> State((['"'] + Escape(text))[..k]).depth == 0
  {
    hide State, Pieces;
    EmptyState();
    var all := ['"'] + Escape(text);
    if text == [] {
      assert all == [] + ['"'] && all[..0] == [] && all[..1] == all;
      StateSnoc([], '"');
    } else {
      var before, c := text[..|text| - 1], text[|text| - 1];
      var head := ['"'] + Escape(before);
      Quoted(before);
      if c == '"' || c == '\\' {
        assert all == head + ['\\'] + [c];
        StateSnoc(head, '\\');
        StateSnoc(head + ['\\'], c);
      } else {
        assert all == head + [c];
        StateSnoc(head, c);
      }
      forall k | 0 <= k <= |all|
        ensures State(all[..k]).depth == 0
      {
        if k <= |head| {
          assert all[..k] == head[..k];
        } else if k < |all| {
          assert all[..k] == head + ['\\'];
        } else {
          assert all[..k] == all;
        }
      }
    }
  }

  /** Any text as a JSON string is balanced, whatever brackets, quotes and commas it holds. */
  lemma StringNested(text: string)
    ensures WellNested(['"'] + Escape(text) + ['"'])
  {
    hide State, Pieces;
    var head := ['"'] + Escape(text);
    var all := head + ['"'];
    Quoted(text);
    StateSnoc(head, '"');
    forall k | 0 <= k <= |all|
      ensures State(all[..k]).depth >= 0
    {
      if k <= |head| {
        assert all[..k] == head[..k];
      } else {
        assert all[..k] == all;
      }
    }
  }

  lemma {:induction false} OneDeeper(open: char, text: string)
    requires open == '{' || open == '['
    ensures State([open] + text) == State(text).(depth := State(text).depth + 1)
  {
    if text == [] {
      StateSnoc([], open);
      assert [open] + text == [] + [open];
    } else {
      var n := |text| - 1;
      OneDeeper(open, text[..n]);
      assert ([open] + text)[..|text|] == [open] + text[..n];
    }
  }

  /** Within a wrapped text everything is at least one level deep. */
  lemma WrappedStates(open: char, text: string, close: char, k: nat)
    requires WellNested(text) && (open == '{' || open == '[') && k <= |text| + 2
    ensures k == 0 ==> State(([open] + text + [close])[..k]) == TOP
    ensures 0 < k < |text| + 2 ==> State(([open] + text + [close])[..k]).depth >= 1
    ensures close == '}' || close == ']' ==> State([open] + text + [close]) == TOP
  {
    hide State, Pieces;
    var all := [open] + text + [close];
    assert text[..|text|] == text;
    OneDeeper(open, text);
    StateSnoc([open] + text, close);
    EmptyState();
    if 0 < k < |all| {
      OneDeeper(open, text[..k - 1]);
      assert all[..k] == [open] + text[..k - 1];
    } else if k == 0 {
      assert all[..0] == [];
    }
  }

  /** Objects and arrays are closed bodies, and can stand inside others. */
  lemma WrappedClosed(open: char, text: string, close: char)
    requires WellNested(text) && ((open == '{' && close == '}') || (open == '[' && close == ']'))
    ensures Closed([open] + text + [close]) && WellNested([open] + text + [close])
  {
    hide State;
    var all := [open] + text + [close];
    assert all[..|all|] == all;
    forall k | 0 <= k <= |all|
      ensures State(all[..k]).depth >= 0
      ensures k < |all| ==> !(State(all[..k]) == TOP && all[k] == ',')
    {
      WrappedStates(open, text, close, k);
    }
    WrappedStates(open, text, close, |all|);
  }

  ghost predicate Free(values: seq<string>, sep: char) {
    forall i, j :: 0 <= i < |values| && 0 <= j < |values[i]| ==> values[i][j] != sep
  }

  /** Parts free of the separator are told apart by it. */
  lemma {:induction false} JoinInjective(a: seq<string>, b: seq<string>, sep: char)
    requires |a| > 0 && |b| > 0 && Free(a, sep) && Free(b, sep)
    requires Join(a, sep) == Join(b, sep)
    ensures a == b
    decreases |a|
  {
    hide Join;
    var m, n := |a| - 1, |b| - 1;
    JoinLast(a, sep);
    JoinLast(b, sep);
    SameLast(Join(a, sep), a[m], b[n], sep, m > 0, n > 0);
    if m > 0 {
      assert Join(a[..m], sep) == Join(b[..n], sep);
      JoinInjective(a[..m], b[..n], sep);
    }
    assert a == a[..m] + [a[m]] && b == b[..n] + [b[n]];
  }

  lemma JoinLast(a: seq<string>, sep: char)
    requires |a| > 0
    ensures var m, text := |a| - 1, Join(a, sep);
            if m == 0 then text == a[0]
            else |text| > |a[m]| && text == text[..|text| - |a[m]| - 1] + [sep] + a[m] &&
                 text[..|text| - |a[m]| - 1] == Join(a[..m], sep)
  {
  }

  /** The part after the last separator is determined by the text. */
  lemma SameLast(text: string, v: string, w: string, sep: char, before: bool, before': bool)
    requires forall j :: 0 <= j < |v| ==> v[j] != sep
    requires forall j :: 0 <= j < |w| ==> w[j] != sep
    requires if before then |text| > |v| && text == text[..|text| - |v| - 1] + [sep] + v else text == v
    requires if before' then |text| > |w| && text == text[..|text| - |w| - 1] + [sep] + w else text == w
    ensures v == w && before == before'
  {
    var k, l := |text| - |v| - 1, |text| - |w| - 1;
    forall p | k < p < |text|
      ensures text[p] != sep
    {
      assert text[p] == v[p - k - 1];
    }
    forall p | l < p < |text|
      ensures text[p] != sep
    {
      assert text[p] == w[p - l - 1];
    }
    assert before ==> text[k] == sep;
    assert before' ==> text[l] == sep;
    assert k == l;
    if before {
      assert text[k + 1..] == v;
    }
    if before' {
      assert text[l + 1..] == w;
    }
  }

  lemma JoinNone(sep: char)
    ensures Join([], sep) == []
  {
  }

  method BuildArray(values: seq<string>) returns (buf: string)
    ensures buf == Array(values)
  {
    hide Join;
    buf := ['['];
    JoinNone(',');
    assert values[..0] == [];
    for i := 0 to |values|
      invariant buf == ['['] + Join(values[..i], ',')
    {
      JoinSnoc(values[..i], values[i], ',');
      assert values[..i + 1] == values[..i] + [values[i]];
      if i > 0 {
        buf := buf + [','];
      }
      buf := buf + values[i];
    }
    assert values[..|values|] == values;
    buf := buf + [']'];
  }
}
