/** Splitting a link line into bitcode and native inputs, with the group flags following the inputs. */
module SplitLine {
  import LinkerInputs
  import opened Options

  const START := "--start-group"
  const END := "--end-group"

  /** The index of the first `x`, or the length. */
  function IndexOf(inputs: seq<string>, x: string): (i: nat)
    ensures i <= |inputs| && x !in inputs[..i] && (i < |inputs| ==> inputs[i] == x)
  {
    if inputs == [] || inputs[0] == x then 0
    else
      var i := 1 + IndexOf(inputs[1..], x);
      assert inputs[..i] == [inputs[0]] + inputs[1..][..i - 1];
      i
  }

  /** Which inputs go to the native list: native objects and archives; flags never do. */
  predicate GoesNative(native: set<string>, input: string) {
    !LinkerInputs.IsFlag(input) && input in native
  }

  function Side(native: set<string>, inputs: seq<string>, side: bool): seq<string> {
    if inputs == [] then []
    else (if GoesNative(native, inputs[0]) == side then [inputs[0]] else []) + Side(native, inputs[1..], side)
  }

  function Wrap(group: seq<string>): seq<string> {
    if group == [] then [] else [START] + (group + [END])
  }

  datatype Split = Split(normal: seq<string>, native: seq<string>)

  /** Python's inputs[from:to]. */
  function Slice(inputs: seq<string>, from: nat, to: nat): seq<string>
    requires from <= |inputs| && to <= |inputs|
  {
    if from <= to then inputs[from..to] else []
  }

  /** None is the fatal message about a group that is not closed. */
  function SplitOf(native: set<string>, inputs: seq<string>): Option<Split>
    decreases |inputs|
  {
    var start := IndexOf(inputs, START);
    if start == |inputs| then Some(Split(Side(native, inputs, false), Side(native, inputs, true)))
    else
      var end := IndexOf(inputs, END);
      if end == |inputs| then None
      else
        var first := SplitOf(native, inputs[..start]);
        var group := SplitOf(native, Slice(inputs, start + 1, end));
        var last := SplitOf(native, inputs[end + 1..]);
        if first.Some? && group.Some? && last.Some? then Some(Combine(first.value, group.value, last.value)) else None
  }

  function Combine(first: Split, group: Split, last: Split): Split {
    Split(first.normal + (Wrap(group.normal) + last.normal), first.native + (Wrap(group.native) + last.native))
  }

  /** A split with one more input in front. */
  function InFront(native: set<string>, x: string, r: Split): Split {
    if GoesNative(native, x) then Split(r.normal, [x] + r.native) else Split([x] + r.normal, r.native)
  }

  lemma Reassociate(x: string, a: seq<string>, b: seq<string>)
    ensures [x] + a + b == [x] + (a + b) && [] + b == b
  {
  }

  /** The split that the splits of the three parts of a line are put together to. */
  ghost predicate SplitFrom(native: set<string>, whole: Option<Split>, before: seq<string>, items: seq<string>,
                            after: seq<string>)
  {
    var first, group, last := SplitOf(native, before), SplitOf(native, items), SplitOf(native, after);
    whole ==
    if first.Some? && group.Some? && last.Some? then Some(Combine(first.value, group.value, last.value)) else None
  }

  /** What the split of a line with a closed group is made of. */
  lemma SplitParts(native: set<string>, inputs: seq<string>)
    requires START in inputs && END in inputs
    ensures
      var start, end := IndexOf(inputs, START), IndexOf(inputs, END);
      && start < |inputs| && end < |inputs|
      && SplitFrom(native, SplitOf(native, inputs), inputs[..start], Slice(inputs, start + 1, end), inputs[end + 1..])
  {
    hide Side, Combine, IndexOf, Slice;
  }

  lemma SplitNeedsEnd(native: set<string>, inputs: seq<string>)
    requires START in inputs
    ensures SplitOf(native, inputs).Some? ==> END in inputs
  {
    hide Side, Combine, Slice, IndexOf;
  }

  lemma CombineInFront(native: set<string>, x: string, first: Split, group: Split, last: Split)
    ensures Combine(InFront(native, x, first), group, last) == InFront(native, x, Combine(first, group, last))
    ensures Combine(Split([], []), group, last) ==
            Split(Wrap(group.normal) + last.normal, Wrap(group.native) + last.native)
  {
    hide Wrap;
    Reassociate(x, first.normal, Wrap(group.normal) + last.normal);
    Reassociate(x, first.native, Wrap(group.native) + last.native);
    Reassociate(x, [], Wrap(group.normal) + last.normal);
    Reassociate(x, [], Wrap(group.native) + last.native);
  }

  method SplitLinkLine(native: set<string>, inputs: seq<string>) returns (r: Option<Split>)
    ensures r == SplitOf(native, inputs)
    decreases |inputs|
  {
    hide Side, SplitOf, IndexOf, GoesNative;
    var normal, nat_: seq<string> := [], [];
    var start := IndexOf(inputs, START);
    if start < |inputs| {
      SplitNeedsEnd(native, inputs);
      if END in inputs { SplitParts(native, inputs); }
      var first := SplitLinkLine(native, inputs[..start]);
      if first.None? {
        return None;
      }
      normal, nat_ := first.value.normal, first.value.native;
      var end := IndexOf(inputs, END);
      if end == |inputs| {
        return None;
      }
      var group := SplitLinkLine(native, Slice(inputs, start + 1, end));
      if group.None? {
        return None;
      }
      if |group.value.normal| > 0 {
        normal := normal + ([START] + (group.value.normal + [END]));
      }
      if |group.value.native| > 0 {
        nat_ := nat_ + ([START] + (group.value.native + [END]));
      }
      var last := SplitLinkLine(native, inputs[end + 1..]);
      if last.None? {
        return None;
      }
      Associate(first.value.normal, group.value.normal, last.value.normal);
      Associate(first.value.native, group.value.native, last.value.native);
      return Some(Split(normal + last.value.normal, nat_ + last.value.native));
    }
    normal, nat_ := SplitByType(native, inputs);
    NoGroups(native, inputs);
    return Some(Split(normal, nat_));
  }

  /** The loop of SplitLinkLine, for inputs without groups. */
  method SplitByType(native: set<string>, inputs: seq<string>) returns (normal: seq<string>, nat_: seq<string>)
    ensures normal == Side(native, inputs, false) && nat_ == Side(native, inputs, true)
  {
    hide Side;
    normal, nat_ := [], [];
    for i := 0 to |inputs|
      invariant Side(native, inputs, false) == normal + Side(native, inputs[i..], false)
      invariant Side(native, inputs, true) == nat_ + Side(native, inputs[i..], true)
    {
      assert inputs[i..][0] == inputs[i] && inputs[i..][1..] == inputs[i + 1..];
      SideStep(native, normal, inputs[i..], false);
      SideStep(native, nat_, inputs[i..], true);
      if LinkerInputs.IsFlag(inputs[i]) {
        normal := normal + [inputs[i]];
      } else if inputs[i] in native {
        nat_ := nat_ + [inputs[i]];
      } else {
        normal := normal + [inputs[i]];
      }
    }
    assert normal + [] == normal && nat_ + [] == nat_ && inputs[|inputs|..] == [];
    NoSide(native);
  }

  lemma Associate(a: seq<string>, group: seq<string>, b: seq<string>)
    ensures a + Wrap(group) + b == a + (Wrap(group) + b)
    ensures group == [] ==> a + Wrap(group) == a
  {
  }

  lemma SideStep(native: set<string>, done: seq<string>, inputs: seq<string>, side: bool)
    requires inputs != []
    ensures done + Side(native, inputs, side) ==
            (if GoesNative(native, inputs[0]) == side then done + [inputs[0]] else done) +
                Side(native, inputs[1..], side)
  {
    hide GoesNative;
    var rest := Side(native, inputs[1..], side);
    assert [] + rest == rest && done + ([inputs[0]] + rest) == done + [inputs[0]] + rest;
  }

  // ----- Link lines with flat, matched groups

  /** `id` only tells groups apart; it is not written. */
  datatype Segment = One(item: string) | Grouped(id: nat, items: seq<string>)

  predicate IsMarker(input: string) {
    input == START || input == END
  }

  predicate GoodSegments(segments: seq<Segment>) {
    forall s | s in segments ::
      (s.One? ==> !IsMarker(s.item)) && (s.Grouped? ==> forall x | x in s.items :: !IsMarker(x))
  }

  function Written(s: Segment): seq<string> {
    match s
    case One(item) => [item]
    case Grouped(_, items) => [START] + (items + [END])
  }

  function Render(segments: seq<Segment>): seq<string> {
    if segments == [] then [] else Written(segments[0]) + Render(segments[1..])
  }

  /** The segments with only one side's inputs, without the groups that become empty. */
  function Keep(native: set<string>, segments: seq<Segment>, side: bool): seq<Segment> {
    if segments == [] then []
    else KeepOne(native, segments[0], side) + Keep(native, segments[1..], side)
  }

  function KeepOne(native: set<string>, s: Segment, side: bool): seq<Segment> {
    match s
    case One(item) => if GoesNative(native, item) == side then [s] else []
    case Grouped(id, items) =>
      var kept := Side(native, items, side);
      if kept == [] then [] else [Grouped(id, kept)]
  }

  /** Every input with the group it is in. */
  function Members(segments: seq<Segment>): seq<(string, Option<nat>)> {
    if segments == [] then []
    else MembersOf(segments[0]) + Members(segments[1..])
  }

  function MembersOf(s: Segment): seq<(string, Option<nat>)> {
    match s
    case One(item) => [(item, None)]
    case Grouped(id, items) => Tagged(items, id)
  }

  function Tagged(items: seq<string>, id: nat): seq<(string, Option<nat>)> {
    if items == [] then [] else [(items[0], Some(id))] + Tagged(items[1..], id)
  }

  function SideMembers(native: set<string>, members: seq<(string, Option<nat>)>, side: bool)
    : seq<(string, Option<nat>)>
  {
    if members == [] then []
    else (if GoesNative(native, members[0].0) == side then [members[0]] else [])
         + SideMembers(native, members[1..], side)
  }

  /** Groups are opened and closed in turn, never nested. */
  predicate Flat(inputs: seq<string>, inside: bool) {
    if inputs == [] then !inside
    else if inputs[0] == START then !inside && Flat(inputs[1..], true)
    else if inputs[0] == END then inside && Flat(inputs[1..], false)
    else Flat(inputs[1..], inside)
  }

  // ----- Flat lines are exactly the rendered segments

  lemma {:induction false} FlatConcat(items: seq<string>, rest: seq<string>, inside: bool)
    requires forall x | x in items :: !IsMarker(x)
    ensures Flat(items + rest, inside) == Flat(rest, inside)
  {
    if items == [] {
      assert items + rest == rest;
    } else {
      assert (items + rest)[0] == items[0] && (items + rest)[1..] == items[1..] + rest;
      assert items[0] in items;
      FlatConcat(items[1..], rest, inside);
    }
  }

  lemma {:induction false} RenderIsFlat(segments: seq<Segment>)
    requires GoodSegments(segments)
    ensures Flat(Render(segments), false)
    decreases |segments|
  {
    if segments != [] {
      RenderIsFlat(segments[1..]);
      assert segments[0] in segments;
      var rest := Render(segments[1..]);
      match segments[0]
      case One(item) =>
        assert Render(segments)[0] == item && Render(segments)[1..] == rest;
      case Grouped(_, items) =>
        assert Render(segments)[1..] == items + ([END] + rest) && Render(segments)[0] == START;
        FlatConcat(items, [END] + rest, true);
        assert ([END] + rest)[1..] == rest;
    }
  }

  lemma {:induction false} CloseGroup(inputs: seq<string>) returns (items: seq<string>, rest: seq<string>)
    requires Flat(inputs, true)
    ensures inputs == items + ([END] + rest) && Flat(rest, false) && forall x | x in items :: !IsMarker(x)
  {
    if inputs[0] == END {
      items, rest := [], inputs[1..];
    } else {
      var more;
      more, rest := CloseGroup(inputs[1..]);
      items := [inputs[0]] + more;
    }
  }

  /** Every flat line is the rendering of segments whose groups have their own numbers. */
  lemma {:induction false} FlatIsRendered(inputs: seq<string>, id: nat) returns (segments: seq<Segment>)
    requires Flat(inputs, false)
    ensures GoodSegments(segments) && Render(segments) == inputs && DistinctFrom(segments, id)
    decreases |inputs|
  {
    if inputs == [] {
      segments := [];
    } else if inputs[0] == START {
      var items, rest := CloseGroup(inputs[1..]);
      var more := FlatIsRendered(rest, id + 1);
      segments := [Grouped(id, items)] + more;
      assert segments[1..] == more;
    } else {
      var more := FlatIsRendered(inputs[1..], id);
      segments := [One(inputs[0])] + more;
      assert segments[1..] == more;
    }
  }

  /** Group numbers increase along the line, from `id` on. */
  predicate DistinctFrom(segments: seq<Segment>, id: nat) {
    segments == [] ||
    (if segments[0].One? then DistinctFrom(segments[1..], id)
     else segments[0].id >= id && DistinctFrom(segments[1..], segments[0].id + 1))
  }

  // ----- The split of a flat line

  lemma {:induction false} SideConcat(native: set<string>, a: seq<string>, b: seq<string>, side: bool)
    ensures Side(native, a + b, side) == Side(native, a, side) + Side(native, b, side)
  {
    if a == [] {
      assert a + b == b;
    } else {
      assert (a + b)[0] == a[0] && (a + b)[1..] == a[1..] + b;
      SideConcat(native, a[1..], b, side);
    }
  }

  lemma IndexAfter(x: string, inputs: seq<string>, marker: string)
    requires x != marker
    ensures IndexOf([x] + inputs, marker) == 1 + IndexOf(inputs, marker)
  {
    assert ([x] + inputs)[1..] == inputs;
  }

  lemma {:induction false} IndexPast(items: seq<string>, rest: seq<string>, marker: string)
    requires marker !in items
    ensures IndexOf(items + ([marker] + rest), marker) == |items|
  {
    if items != [] {
      assert (items + ([marker] + rest))[1..] == items[1..] + ([marker] + rest);
      assert items[0] in items;
      IndexPast(items[1..], rest, marker);
    }
  }

  lemma NoGroups(native: set<string>, inputs: seq<string>)
    requires START !in inputs
    ensures SplitOf(native, inputs) == Some(Split(Side(native, inputs, false), Side(native, inputs, true)))
  {
  }

  lemma SidesInFront(native: set<string>, x: string, inputs: seq<string>)
    ensures Split(Side(native, [x] + inputs, false), Side(native, [x] + inputs, true)) ==
            InFront(native, x, Split(Side(native, inputs, false), Side(native, inputs, true)))
  {
    assert ([x] + inputs)[1..] == inputs;
    assert [] + Side(native, inputs, false) == Side(native, inputs, false) &&
        [] + Side(native, inputs, true) == Side(native, inputs, true);
  }

  /** An input in front of everything goes in front of its side. */
  lemma SplitOne(native: set<string>, x: string, inputs: seq<string>)
    requires !IsMarker(x) && SplitOf(native, inputs).Some?
    ensures SplitOf(native, [x] + inputs) == Some(InFront(native, x, SplitOf(native, inputs).value))
  {
    hide GoesNative, Side, Combine, InFront, SplitOf, SplitFrom, IndexOf, Slice;
    var all := [x] + inputs;
    var start, end := IndexOf(inputs, START), IndexOf(inputs, END);
    IndexAfter(x, inputs, START);
    IndexAfter(x, inputs, END);
    SidesInFront(native, x, inputs);
    if start == |inputs| {
      NoGroups(native, inputs);
      NoGroups(native, all);
    } else {
      SplitNeedsEnd(native, inputs);
      assert all[..start + 1] == [x] + inputs[..start] && all[end + 2..] == inputs[end + 1..];
      SliceAfter(x, inputs, start + 1, end);
      SplitParts(native, inputs);
      SplitParts(native, all);
      SplitOneGrouped(native, x, SplitOf(native, inputs), SplitOf(native, all), inputs[..start],
                      Slice(inputs, start + 1, end), inputs[end + 1..]);
    }
  }

  lemma SliceAfter(x: string, inputs: seq<string>, from: nat, to: nat)
    requires from <= |inputs| && to <= |inputs|
    ensures Slice([x] + inputs, from + 1, to + 1) == Slice(inputs, from, to)
  {
    if from <= to {
      assert ([x] + inputs)[from + 1..to + 1] == inputs[from..to];
    }
  }

  lemma SplitOneGrouped(native: set<string>, x: string, was: Option<Split>, now: Option<Split>, before: seq<string>,
                        items: seq<string>, after: seq<string>)
    requires SplitFrom(native, was, before, items, after) && SplitFrom(native, now, [x] + before, items, after)
    requires was.Some? && START !in before && START != x
    ensures now == Some(InFront(native, x, was.value))
  {
    hide GoesNative, Side, Combine, InFront, SplitOf;
    SplitBefore(native, x, before);
    CombineInFront(native, x, SplitOf(native, before).value, SplitOf(native, items).value,
                   SplitOf(native, after).value);
  }

  lemma SplitBefore(native: set<string>, x: string, before: seq<string>)
    requires START !in before && START != x
    ensures SplitOf(native, before).Some?
    ensures SplitOf(native, [x] + before) == Some(InFront(native, x, SplitOf(native, before).value))
  {
    hide GoesNative, Side, InFront, SplitOf;
    SidesInFront(native, x, before);
    NoGroups(native, before);
    NoGroups(native, [x] + before);
  }

  /** A group in front of everything is split on its own. */
  lemma SplitGroup(native: set<string>, items: seq<string>, rest: seq<string>)
    requires (forall x | x in items :: !IsMarker(x)) && SplitOf(native, rest).Some?
    ensures var r := SplitOf(native, rest).value;
            SplitOf(native, [START] + (items + ([END] + rest))) ==
            Some(Split(Wrap(Side(native, items, false)) + r.normal, Wrap(Side(native, items, true)) + r.native))
  {
    hide Side, Wrap, SplitOf;
    GroupPlaces(items, rest);
    SplitAtGroup(native, [START] + (items + ([END] + rest)), items, rest);
  }

  lemma SplitAtGroup(native: set<string>, all: seq<string>, items: seq<string>, rest: seq<string>)
    requires (forall x | x in items :: !IsMarker(x)) && SplitOf(native, rest).Some?
    requires IndexOf(all, START) == 0 && IndexOf(all, END) == 1 + |items| && START in all && END in all
    requires 2 + |items| <= |all| && all[..0] == [] && Slice(all, 1, 1 + |items|) == items && all[2 + |items|..] == rest
    ensures var r := SplitOf(native, rest).value;
            SplitOf(native, all) ==
                Some(Split(Wrap(Side(native, items, false)) + r.normal, Wrap(Side(native, items, true)) + r.native))
  {
    hide Side, Wrap, Combine, IndexOf, Slice, SplitOf;
    SplitParts(native, all);
    NoGroups(native, items);
    NoGroups(native, []);
    NoSide(native);
    var group := Split(Side(native, items, false), Side(native, items, true));
    CombineInFront(native, "", group, group, SplitOf(native, rest).value);
  }

  lemma GroupPlaces(items: seq<string>, rest: seq<string>)
    requires forall x | x in items :: !IsMarker(x)
    ensures var all := [START] + (items + ([END] + rest));
            && IndexOf(all, START) == 0 && IndexOf(all, END) == 1 + |items|
            && START in all && END in all && all[..0] == [] && Slice(all, 1, 1 + |items|) == items &&
                all[2 + |items|..] == rest
  {
    var all := [START] + (items + ([END] + rest));
    IndexAfter(START, items + ([END] + rest), END);
    IndexPast(items, rest, END);
    assert all[0] == START && all[1 + |items|] == END;
  }

  lemma NoSide(native: set<string>)
    ensures Side(native, [], false) == [] && Side(native, [], true) == []
  {
  }

  /** The split of a flat line: each side keeps its inputs, in order and in their groups, and no empty group. */
  lemma {:induction false} SplitFlat(native: set<string>, segments: seq<Segment>)
    requires GoodSegments(segments)
    ensures SplitOf(native, Render(segments)) ==
            Some(Split(Render(Keep(native, segments, false)), Render(Keep(native, segments, true))))
    decreases |segments|
  {
    hide SplitOf, GoesNative, Side, Wrap, KeepOne;
    if segments == [] {
      assert Render([]) == [];
      NoGroups(native, []);
      NoSide(native);
    } else {
      var rest := segments[1..];
      SplitFlat(native, rest);
      assert segments[0] in segments;
      RenderConcat(KeepOne(native, segments[0], false), Keep(native, rest, false));
      RenderConcat(KeepOne(native, segments[0], true), Keep(native, rest, true));
      RenderKeepOne(native, segments[0], false);
      RenderKeepOne(native, segments[0], true);
      RenderFirst(segments);
      match segments[0]
      case One(item) =>
        SplitOne(native, item, Render(rest));
        NothingInFront(Render(Keep(native, rest, false)));
        NothingInFront(Render(Keep(native, rest, true)));
      case Grouped(_, items) => SplitGroup(native, items, Render(rest));
    }
  }

  lemma NothingInFront(s: seq<string>)
    ensures [] + s == s
  {
  }

  lemma RenderFirst(segments: seq<Segment>)
    requires segments != []
    ensures segments[0].One? ==> Render(segments) == [segments[0].item] + Render(segments[1..])
    ensures segments[0].Grouped? ==> Render(segments) == [START] + (segments[0].items + ([END] + Render(segments[1..])))
  {
  }

  lemma RenderKeepOne(native: set<string>, s: Segment, side: bool)
    ensures Render(KeepOne(native, s, side)) ==
            if s.One? then (if GoesNative(native, s.item) == side then [s.item] else [])
                else Wrap(Side(native, s.items, side))
  {
    var kept := KeepOne(native, s, side);
    if kept != [] { assert kept[1..] == [] && Written(kept[0]) + [] == Written(kept[0]); }
  }

  lemma {:induction false} RenderConcat(a: seq<Segment>, b: seq<Segment>)
    ensures Render(a + b) == Render(a) + Render(b)
  {
    if a == [] {
      assert a + b == b;
    } else {
      assert (a + b)[0] == a[0] && (a + b)[1..] == a[1..] + b;
      RenderConcat(a[1..], b);
    }
  }

  // ----- What that says about the inputs

  lemma {:induction false} TaggedSide(native: set<string>, items: seq<string>, id: nat, side: bool)
    ensures Tagged(Side(native, items, side), id) == SideMembers(native, Tagged(items, id), side)
  {
    if items != [] {
      TaggedSide(native, items[1..], id, side);
      OneTagged(native, items[0], Side(native, items[1..], side), Tagged(items[1..], id), id, side);
    }
  }

  lemma OneTagged(native: set<string>, item: string, rest: seq<string>, members: seq<(string, Option<nat>)>, id: nat,
                  side: bool)
    ensures Tagged([item] + rest, id) == [(item, Some(id))] + Tagged(rest, id) && [] + rest == rest
    ensures SideMembers(native, [(item, Some(id))] + members, side) ==
            if GoesNative(native, item) == side then [(item, Some(id))] + SideMembers(native, members, side)
            else SideMembers(native, members, side)
  {
    assert ([item] + rest)[1..] == rest;
    assert ([(item, Some(id))] + members)[1..] == members;
  }

  lemma {:induction false} SideMembersConcat(native: set<string>, a: seq<(string, Option<nat>)>,
                                             b: seq<(string, Option<nat>)>, side: bool)
    ensures SideMembers(native, a + b, side) == SideMembers(native, a, side) + SideMembers(native, b, side)
  {
    if a == [] {
      assert a + b == b;
    } else {
      assert (a + b)[0] == a[0] && (a + b)[1..] == a[1..] + b;
      SideMembersConcat(native, a[1..], b, side);
    }
  }

  lemma {:induction false} MembersConcat(a: seq<Segment>, b: seq<Segment>)
    ensures Members(a + b) == Members(a) + Members(b)
  {
    if a == [] {
      assert a + b == b;
    } else {
      assert (a + b)[0] == a[0] && (a + b)[1..] == a[1..] + b;
      MembersConcat(a[1..], b);
    }
  }

  /** Each side holds exactly its inputs, in order, each in the group it was in. */
  lemma {:induction false} KeepMembers(native: set<string>, segments: seq<Segment>, side: bool)
    ensures Members(Keep(native, segments, side)) == SideMembers(native, Members(segments), side)
    decreases |segments|
  {
    if segments != [] {
      KeepMembers(native, segments[1..], side);
      var s, kept := segments[0], KeepOne(native, segments[0], side);
      MembersConcat(kept, Keep(native, segments[1..], side));
      SideMembersConcat(native, MembersOf(s), Members(segments[1..]), side);
      assert Members(kept) == SideMembers(native, MembersOf(s), side) by {
        if kept != [] { assert kept[1..] == [] && MembersOf(kept[0]) + [] == MembersOf(kept[0]); }
        if s.Grouped? { TaggedSide(native, s.items, s.id, side); }
      }
    }
  }

  lemma {:induction false} KeepGood(native: set<string>, segments: seq<Segment>, side: bool)
    requires GoodSegments(segments)
    ensures GoodSegments(Keep(native, segments, side))
    decreases |segments|
  {
    if segments != [] {
      KeepGood(native, segments[1..], side);
      assert segments[0] in segments;
      if segments[0].Grouped? { SideFrom(native, segments[0].items, side); }
    }
  }

  lemma {:induction false} SideFrom(native: set<string>, items: seq<string>, side: bool)
    ensures forall x | x in Side(native, items, side) :: x in items && GoesNative(native, x) == side
  {
    if items != [] {
      SideFrom(native, items[1..], side);
    }
  }

  lemma {:induction false} SideAgain(native: set<string>, items: seq<string>, side: bool, again: bool)
    ensures Side(native, Side(native, items, side), again) == if side == again then Side(native, items, side) else []
  {
    if items != [] {
      SideAgain(native, items[1..], side, again);
      var head := if GoesNative(native, items[0]) == side then [items[0]] else [];
      SideConcat(native, head, Side(native, items[1..], side), again);
    }
  }

  lemma {:induction false} KeepConcat(native: set<string>, a: seq<Segment>, b: seq<Segment>, side: bool)
    ensures Keep(native, a + b, side) == Keep(native, a, side) + Keep(native, b, side)
    decreases |a|
  {
    if a == [] {
      assert a + b == b;
    } else {
      assert (a + b)[0] == a[0] && (a + b)[1..] == a[1..] + b;
      KeepConcat(native, a[1..], b, side);
    }
  }

  lemma {:induction false} KeepAgain(native: set<string>, segments: seq<Segment>, side: bool, again: bool)
    ensures Keep(native, Keep(native, segments, side), again) == if side == again then Keep(native, segments, side)
            else []
    decreases |segments|
  {
    if segments != [] {
      KeepAgain(native, segments[1..], side, again);
      var kept := KeepOne(native, segments[0], side);
      KeepConcat(native, kept, Keep(native, segments[1..], side), again);
      if kept != [] { assert kept[1..] == [] &&
                     KeepOne(native, kept[0], again) + [] == KeepOne(native, kept[0], again); }
      if segments[0].Grouped? { SideAgain(native, segments[0].items, side, again); }
    }
  }

  /** Splitting either list again returns it unchanged, with the other side empty; and both are flat. */
  lemma SplitAgain(native: set<string>, inputs: seq<string>)
    requires Flat(inputs, false)
    ensures SplitOf(native, inputs).Some?
    ensures var r := SplitOf(native, inputs).value;
            && Flat(r.normal, false) && Flat(r.native, false)
            && SplitOf(native, r.normal) == Some(Split(r.normal, []))
            && SplitOf(native, r.native) == Some(Split([], r.native))
  {
    hide SplitOf;
    var segments := FlatIsRendered(inputs, 0);
    SplitFlat(native, segments);
    forall side: bool
      ensures var kept := Keep(native, segments, side);
              Flat(Render(kept), false) &&
              SplitOf(native, Render(kept)) == Some(if side then Split([], Render(kept)) else Split(Render(kept), []))
    {
      var kept := Keep(native, segments, side);
      KeepGood(native, segments, side);
      RenderIsFlat(kept);
      SplitFlat(native, kept);
      KeepAgain(native, segments, side, false);
      KeepAgain(native, segments, side, true);
    }
  }

  // ----- Sharing a group

  /** Every input of a line, with the number of its group if it is in one; groups are counted from `n` on. */
  function Places(inputs: seq<string>, n: nat, inside: bool): seq<(string, Option<nat>)> {
    if inputs == [] then []
    else if inputs[0] == START then Places(inputs[1..], n, true)
    else if inputs[0] == END then Places(inputs[1..], n + 1, false)
    else [(inputs[0], if inside then Some(n) else None)] + Places(inputs[1..], n, inside)
  }

  /** The same inputs in the same order, of which the same ones are in groups and the same ones share a group. */
  ghost predicate SameGroups(a: seq<(string, Option<nat>)>, b: seq<(string, Option<nat>)>) {
    && |a| == |b|
    && (forall i | 0 <= i < |a| :: a[i].0 == b[i].0 && (a[i].1.None? <==> b[i].1.None?))
    && (forall i, j | 0 <= i < |a| && 0 <= j < |a| :: a[i].1 == a[j].1 <==> b[i].1 == b[j].1)
  }

  /** No group has members in both lists. */
  ghost predicate GroupsApart(a: seq<(string, Option<nat>)>, b: seq<(string, Option<nat>)>) {
    forall i, j | 0 <= i < |a| && 0 <= j < |b| :: a[i].1.None? || a[i].1 != b[j].1
  }

  lemma SameGroupsConcat(a: seq<(string, Option<nat>)>, b: seq<(string, Option<nat>)>,
                         a': seq<(string, Option<nat>)>, b': seq<(string, Option<nat>)>)
    requires SameGroups(a, a') && SameGroups(b, b') && GroupsApart(a, b) && GroupsApart(a', b')
    ensures SameGroups(a + b, a' + b')
  {
    forall i, j | 0 <= i < |a + b| && 0 <= j < |a + b|
      ensures (a + b)[i].1 == (a + b)[j].1 <==> (a' + b')[i].1 == (a' + b')[j].1
    {
      if i < |a| <= j {
        assert a[i].1.None? || a[i].1 != b[j - |a|].1;
        assert a'[i].1.None? || a'[i].1 != b'[j - |a|].1;
      } else if j < |a| <= i {
        assert a[j].1.None? || a[j].1 != b[i - |a|].1;
        assert a'[j].1.None? || a'[j].1 != b'[i - |a|].1;
      }
    }
  }

  lemma {:induction false} SideKeepsGroups(native: set<string>, a: seq<(string, Option<nat>)>,
                                           b: seq<(string, Option<nat>)>, side: bool)
    returns (at: seq<nat>)
    requires |a| == |b| && forall i | 0 <= i < |a| :: a[i].0 == b[i].0
    ensures |at| == |SideMembers(native, a, side)| == |SideMembers(native, b, side)|
    ensures forall k | 0 <= k < |at| ::
              at[k] < |a| && SideMembers(native, a, side)[k] == a[at[k]] && SideMembers(native, b, side)[k] == b[at[k]]
    decreases |a|
  {
    if a == [] {
      at := [];
    } else {
      var rest := SideKeepsGroups(native, a[1..], b[1..], side);
      var later := seq(|rest|, k requires 0 <= k < |rest| => rest[k] + 1);
      at := (if GoesNative(native, a[0].0) == side then [0] else []) + later;
    }
  }

  /** Picking one side's inputs keeps which of them share a group. */
  lemma SideSameGroups(native: set<string>, a: seq<(string, Option<nat>)>, b: seq<(string, Option<nat>)>, side: bool)
    requires SameGroups(a, b)
    ensures SameGroups(SideMembers(native, a, side), SideMembers(native, b, side))
  {
    hide SideMembers;
    var at := SideKeepsGroups(native, a, b, side);
  }

  lemma {:induction false} TaggedAt(items: seq<string>, id: nat)
    ensures |Tagged(items, id)| == |items| && forall k | 0 <= k < |items| ::
            Tagged(items, id)[k] == (items[k], Some(id))
  {
    if items != [] {
      TaggedAt(items[1..], id);
    }
  }

  lemma {:induction false} TagsFrom(segments: seq<Segment>, id: nat)
    requires DistinctFrom(segments, id)
    ensures forall m | m in Members(segments) && m.1.Some? :: m.1.value >= id
    decreases |segments|
  {
    if segments != [] {
      TagsFrom(segments[1..], if segments[0].One? then id else segments[0].id + 1);
      if segments[0].Grouped? { TaggedAt(segments[0].items, segments[0].id); }
    }
  }

  lemma {:induction false} PlacesFrom(inputs: seq<string>, n: nat, inside: bool)
    ensures forall m | m in Places(inputs, n, inside) && m.1.Some? :: m.1.value >= n
    decreases |inputs|
  {
    if inputs != [] {
      PlacesFrom(inputs[1..], if inputs[0] == END then n + 1
                 else n, inputs[0] == START || (inputs[0] != END && inside));
    }
  }

  lemma {:induction false} PlacesConcat(items: seq<string>, rest: seq<string>, n: nat)
    requires forall x | x in items :: !IsMarker(x)
    ensures Places(items + ([END] + rest), n, true) == Tagged(items, n) + Places(rest, n + 1, false)
    decreases |items|
  {
    var all := items + ([END] + rest);
    if items == [] {
      assert all[1..] == rest;
    } else {
      assert items[0] in items && all[1..] == items[1..] + ([END] + rest);
      PlacesConcat(items[1..], rest, n);
    }
  }

  lemma PlacesOne(item: string, rest: seq<string>, n: nat)
    requires !IsMarker(item)
    ensures Places([item] + rest, n, false) == [(item, None)] + Places(rest, n, false)
  {
    assert ([item] + rest)[1..] == rest;
  }

  lemma PlacesGroup(items: seq<string>, rest: seq<string>, n: nat)
    requires forall x | x in items :: !IsMarker(x)
    ensures Places([START] + (items + [END]) + rest, n, false) == Tagged(items, n) + Places(rest, n + 1, false)
  {
    var all := [START] + (items + [END]) + rest;
    assert all[1..] == items + ([END] + rest);
    PlacesConcat(items, rest, n);
  }

  lemma FirstSegment(segments: seq<Segment>, first: Segment, rest: seq<Segment>)
    requires segments != [] && segments[0] == first && segments[1..] == rest
    ensures Members(segments) == MembersOf(first) + Members(rest) && Render(segments) == Written(first) + Render(rest)
  {
  }

  /** The groups of a rendered line are those of its segments. */
  lemma {:induction false} PlacesAreMembers(segments: seq<Segment>, id: nat, n: nat)
    requires GoodSegments(segments) && DistinctFrom(segments, id)
    ensures SameGroups(Members(segments), Places(Render(segments), n, false))
    decreases |segments|
  {
    hide SameGroups, Places, Members, Render, Tagged;
    if segments == [] {
      NothingSame(n);
    } else {
      var first, rest := segments[0], segments[1..];
      assert first in segments && forall s | s in rest :: s in segments;
      FirstSegment(segments, first, rest);
      match first
      case One(item) =>
        PlacesAreMembers(rest, id, n);
        PlacesOne(item, Render(rest), n);
        OneSame(item, Members(rest), Places(Render(rest), n, false));
      case Grouped(tag, items) =>
        PlacesAreMembers(rest, tag + 1, n + 1);
        PlacesGroup(items, Render(rest), n);
        TagsFrom(rest, tag + 1);
        PlacesFrom(Render(rest), n + 1, false);
        GroupSame(items, tag, n, Members(rest), Places(Render(rest), n + 1, false));
    }
  }

  lemma NothingSame(n: nat)
    ensures SameGroups(Members([]), Places(Render([]), n, false))
  {
  }

  lemma OneSame(item: string, a: seq<(string, Option<nat>)>, b: seq<(string, Option<nat>)>)
    requires SameGroups(a, b)
    ensures SameGroups([(item, None)] + a, [(item, None)] + b)
  {
    SameGroupsConcat([(item, None)], a, [(item, None)], b);
  }

  lemma GroupSame(items: seq<string>, tag: nat, n: nat, a: seq<(string, Option<nat>)>, b: seq<(string, Option<nat>)>)
    requires SameGroups(a, b)
    requires forall m | m in a && m.1.Some? :: m.1.value >= tag + 1
    requires forall m | m in b && m.1.Some? :: m.1.value >= n + 1
    ensures SameGroups(Tagged(items, tag) + a, Tagged(items, n) + b)
  {
    TaggedAt(items, tag);
    TaggedAt(items, n);
    SameGroupsConcat(Tagged(items, tag), a, Tagged(items, n), b);
  }

  lemma {:induction false} KeepDistinct(native: set<string>, segments: seq<Segment>, id: nat, side: bool)
    requires DistinctFrom(segments, id)
    ensures DistinctFrom(Keep(native, segments, side), id)
    decreases |segments|
  {
    if segments != [] {
      var first, rest := segments[0], Keep(native, segments[1..], side);
      KeepDistinct(native, segments[1..], if first.One? then id else first.id + 1, side);
      var kept := KeepOne(native, first, side);
      if kept == [] {
        assert kept + rest == rest;
        if first.Grouped? { DistinctFromLess(rest, first.id + 1, id); }
      } else {
        assert (kept + rest)[1..] == rest;
      }
    }
  }

  lemma {:induction false} DistinctFromLess(segments: seq<Segment>, id: nat, less: nat)
    requires DistinctFrom(segments, id) && less <= id
    ensures DistinctFrom(segments, less)
    decreases |segments|
  {
    if segments != [] && segments[0].One? {
      DistinctFromLess(segments[1..], id, less);
    }
  }

  /**
   * The split of a flat line, on the lines themselves: each side has exactly its inputs in order, grouped or not as
   * before, and two of them share a group exactly if they did before.
   */
  lemma SplitKeepsGroups(native: set<string>, inputs: seq<string>)
    requires Flat(inputs, false)
    ensures SplitOf(native, inputs).Some?
    ensures var r := SplitOf(native, inputs).value;
            && SameGroups(SideMembers(native, Places(inputs, 0, false), false), Places(r.normal, 0, false))
            && SameGroups(SideMembers(native, Places(inputs, 0, false), true), Places(r.native, 0, false))
  {
    hide SplitOf, Places, Members, SideMembers, SameGroups;
    var segments := FlatIsRendered(inputs, 0);
    SplitFlat(native, segments);
    PlacesAreMembers(segments, 0, 0);
    forall side: bool
      ensures SameGroups(SideMembers(native, Places(inputs, 0, false), side),
                         Places(Render(Keep(native, segments, side)), 0, false))
    {
      var kept := Keep(native, segments, side);
      KeepGood(native, segments, side);
      KeepDistinct(native, segments, 0, side);
      KeepMembers(native, segments, side);
      PlacesAreMembers(kept, 0, 0);
      SideSameGroups(native, Members(segments), Places(inputs, 0, false), side);
      SameGroupsBoth(Members(kept), SideMembers(native, Places(inputs, 0, false), side),
                     Places(Render(kept), 0, false));
    }
  }

  lemma SameGroupsBoth(a: seq<(string, Option<nat>)>, b: seq<(string, Option<nat>)>, c: seq<(string, Option<nat>)>)
    requires SameGroups(a, b) && SameGroups(a, c)
    ensures SameGroups(b, c)
  {
  }

  // ----- The split with the flags written out

  /** The native side takes the native files that do not look like a flag other than -l; all else is normal. */
  lemma FirstGoes(native: set<string>, x: string, rest: seq<string>)
    requires x != "--start-group" && x != "--end-group" && SplitOf(native, rest).Some?
    ensures
      var r := SplitOf(native, rest).value;
      SplitOf(native, [x] + rest) ==
      Some(if x in native && ("-" <= x ==> "-l" <= x) then Split(r.normal, [x] + r.native)
           else Split([x] + r.normal, r.native))
  {
    hide SplitOf;
    SplitOne(native, x, rest);
  }

  /** A group's two sides each stand between both flags, unless there is nothing in them. */
  lemma GroupGoes(native: set<string>, items: seq<string>, rest: seq<string>)
    requires "--start-group" !in items && "--end-group" !in items && SplitOf(native, rest).Some?
    ensures SplitOf(native, items).Some?
    ensures
      var g, r := SplitOf(native, items).value, SplitOf(native, rest).value;
      var normal := if g.normal == [] then [] else ["--start-group"] + g.normal + ["--end-group"];
      var native_ := if g.native == [] then [] else ["--start-group"] + g.native + ["--end-group"];
      SplitOf(native, ["--start-group"] + items + ["--end-group"] + rest) ==
      Some(Split(normal + r.normal, native_ + r.native))
  {
    hide SplitOf, Side;
    NoGroups(native, items);
    SplitGroup(native, items, rest);
    assert ["--start-group"] + items + ["--end-group"] + rest == [START] + (items + ([END] + rest));
    assert forall g: seq<string> :: ["--start-group"] + g + ["--end-group"] == [START] + (g + [END]);
  }

  /** A line without inputs, and a line with a group that is never closed. */
  lemma SplitEnds(native: set<string>, inputs: seq<string>)
    ensures SplitOf(native, []) == Some(Split([], []))
    ensures "--start-group" in inputs && "--end-group" !in inputs ==> SplitOf(native, inputs).None?
  {
    hide Side, Combine, Slice, IndexOf;
    NoGroups(native, []);
    NoSide(native);
    if START in inputs { SplitNeedsEnd(native, inputs); }
  }
}
