/**
 The comma-separated list of agents kept with each session (store/db.go): sanitising the id, the SQL
 CASE expression that extends the list, and SQL's LIKE. With `fold` LIKE ignores ASCII case, as in
 SQLite; without it, it compares exactly.
 */
module SessionAgents {

  // ---- LIKE ----

  predicate IsUpper(c: char) { 'A' <= c <= 'Z' }
  predicate IsLower(c: char) { 'a' <= c <= 'z' }
  predicate IsLetter(c: char) { IsUpper(c) || IsLower(c) }
  predicate IsWildcard(c: char) { c == '%' || c == '_' }

  function Lower(c: char): char { if IsUpper(c) then (c as int + 32) as char else c }

  function OtherCase(c: char): char
    requires IsLetter(c)
  {
    if IsUpper(c) then (c as int + 32) as char else (c as int - 32) as char
  }

  predicate SameChar(fold: bool, a: char, b: char) { if fold then Lower(a) == Lower(b) else a == b }

  predicate Like(fold: bool, p: string, s: string)
    decreases |p| + |s|
  {
    if p == [] then s == []
    else if p[0] == '%' then Like(fold, p[1..], s) || (s != [] && Like(fold, p, s[1..]))
    else if p[0] == '_' then s != [] && Like(fold, p[1..], s[1..])
    else s != [] && SameChar(fold, p[0], s[0]) && Like(fold, p[1..], s[1..])
  }

  lemma {:induction false} LikeConcat(fold: bool, p: string, x: string, q: string, y: string)
    requires Like(fold, p, x) && Like(fold, q, y)
    ensures Like(fold, p + q, x + y)
    decreases |p| + |x|
  {
    if p == [] {
      assert p + q == q && x + y == y;
    } else {
      assert (p + q)[0] == p[0] && (p + q)[1..] == p[1..] + q;
      if p[0] == '%' && Like(fold, p[1..], x) {
        LikeConcat(fold, p[1..], x, q, y);
      } else {
        assert (x + y)[0] == x[0] && (x + y)[1..] == x[1..] + y;
        if p[0] == '%' {
          LikeConcat(fold, p, x[1..], q, y);
        } else {
          LikeConcat(fold, p[1..], x[1..], q, y);
        }
      }
    }
  }

  lemma {:induction false} PercentMatchesAll(fold: bool, s: string)
    ensures Like(fold, "%", s)
  {
    if s != [] {
      PercentMatchesAll(fold, s[1..]);
    } else {
      assert "%"[1..] == [];
    }
  }

  lemma LikeOne(fold: bool, c: char, d: char)
    requires IsWildcard(c) || SameChar(fold, c, d)
    ensures Like(fold, [c], [d])
  {
    assert [c][1..] == [] && [d][1..] == [];
    if c == '%' {
      PercentMatchesAll(fold, [d]);
      assert [c] == "%";
    }
  }

  /** Every string matches itself, wildcards included. */
  lemma {:induction false} LikeSelf(fold: bool, s: string)
    ensures Like(fold, s, s)
  {
    if s != [] {
      LikeOne(fold, s[0], s[0]);
      LikeSelf(fold, s[1..]);
      LikeConcat(fold, [s[0]], [s[0]], s[1..], s[1..]);
      assert s == [s[0]] + s[1..];
    }
  }

  /** A character may change where the pattern has a wildcard, or to one that compares equal. */
  lemma LikeChanged(fold: bool, p: string, i: nat, d: char)
    requires i < |p| && (IsWildcard(p[i]) || SameChar(fold, p[i], d))
    ensures Like(fold, p, p[i := d])
  {
    LikeSelf(fold, p[..i]);
    LikeOne(fold, p[i], d);
    LikeSelf(fold, p[i + 1..]);
    LikeConcat(fold, p[..i], p[..i], [p[i]], [d]);
    LikeConcat(fold, p[..i] + [p[i]], p[..i] + [d], p[i + 1..], p[i + 1..]);
    assert p == p[..i] + [p[i]] + p[i + 1..];
    assert p[i := d] == p[..i] + [d] + p[i + 1..];
  }

  /** Characters that only match themselves. */
  predicate Plain(fold: bool, c: char) { !IsWildcard(c) && (fold ==> !IsLetter(c)) }

  predicate AllPlain(fold: bool, s: string) { forall i :: 0 <= i < |s| ==> Plain(fold, s[i]) }

  lemma {:induction false} PlainPrefix(fold: bool, p: string, s: string)
    requires AllPlain(fold, p) && Like(fold, p + "%", s)
    ensures p <= s
    decreases |p|
  {
    if p != [] {
      assert (p + "%")[0] == p[0] && (p + "%")[1..] == p[1..] + "%";
      assert SameChar(fold, p[0], s[0]);
      assert p[0] == s[0];
      PlainPrefix(fold, p[1..], s[1..]);
    }
  }

  lemma {:induction false} PlainInfix(fold: bool, p: string, s: string) returns (a: string, b: string)
    requires AllPlain(fold, p) && Like(fold, "%" + p + "%", s)
    ensures s == a + p + b
    decreases |s|
  {
    var q := "%" + p + "%";
    assert q[0] == '%' && q[1..] == p + "%";
    if Like(fold, p + "%", s) {
      PlainPrefix(fold, p, s);
      a, b := "", s[|p|..];
    } else {
      a, b := PlainInfix(fold, p, s[1..]);
      a := [s[0]] + a;
    }
  }

  // ---- The list ----

  function Split(s: string): (r: seq<string>)
    ensures |r| >= 1
  {
    if s == [] then [""]
    else
      var rest := Split(s[1..]);
      if s[0] == ',' then [""] + rest else [[s[0]] + rest[0]] + rest[1..]
  }

  lemma {:induction false} SplitOne(s: string)
    requires ',' !in s
    ensures Split(s) == [s]
  {
    if s != [] {
      SplitOne(s[1..]);
      assert s == [s[0]] + s[1..];
    }
  }

  lemma {:induction false} SplitConcat(a: string, b: string)
    ensures Split(a + "," + b) == Split(a) + Split(b)
  {
    var s := a + "," + b;
    if a == [] {
      assert s[0] == ',' && s[1..] == b;
    } else {
      assert s[0] == a[0] && s[1..] == a[1..] + "," + b;
      SplitConcat(a[1..], b);
    }
  }

  /** The items between commas, with a comma on either side. */
  function Pad(l: seq<string>): string {
    if l == [] then "," else "," + l[0] + Pad(l[1..])
  }

  lemma PadOne(x: string)
    ensures Pad([x]) == "," + x + ","
  {
    assert [x][1..] == [];
  }

  lemma {:induction false} PadFirst(x: string, rest: seq<string>)
    ensures Pad([x] + rest) == "," + x + Pad(rest)
  {
    assert ([x] + rest)[1..] == rest;
  }

  lemma Regroup(c: char, x: string, tail: string)
    ensures "," + ([c] + x) + tail == "," + [c] + ("," + x + tail)[1..]
  {
    assert ("," + x + tail)[1..] == x + tail;
  }

  lemma {:induction false} PadGrowFirst(c: char, l: seq<string>)
    requires l != []
    ensures Pad([[c] + l[0]] + l[1..]) == "," + [c] + Pad(l)[1..]
  {
    PadFirst([c] + l[0], l[1..]);
    PadFirst(l[0], l[1..]);
    assert l == [l[0]] + l[1..];
    Regroup(c, l[0], Pad(l[1..]));
  }

  lemma {:induction false} PadEmptyFirst(l: seq<string>)
    ensures Pad([""] + l) == "," + Pad(l)
  {
    assert ([""] + l)[1..] == l;
    assert "," + "" + Pad(l) == "," + Pad(l);
  }

  lemma {:induction false} PadSplit(s: string)
    ensures Pad(Split(s)) == "," + s + ","
  {
    if s == [] {
      PadOne("");
    } else {
      PadSplit(s[1..]);
      var rest := Split(s[1..]);
      if s[0] == ',' {
        PadEmptyFirst(rest);
        assert "," + ("," + s[1..] + ",") == "," + s + ",";
      } else {
        PadGrowFirst(s[0], rest);
        assert ("," + s[1..] + ",")[1..] == s[1..] + ",";
        assert "," + [s[0]] + (s[1..] + ",") == "," + s + ",";
      }
    }
  }

  lemma {:induction false} PadAt(l: seq<string>, i: nat) returns (a: string, b: string)
    requires i < |l|
    ensures Pad(l) == a + ("," + l[i] + ",") + b
    decreases i
  {
    if i == 0 {
      var t := Pad(l[1..]);
      assert t[0] == ',';
      a, b := "", t[1..];
      assert t == "," + t[1..];
    } else {
      a, b := PadAt(l[1..], i - 1);
      a := "," + l[0] + a;
    }
  }

  /** The agent test of the CASE expression. */
  predicate Listed(fold: bool, list: string, id: string) {
    Like(fold, "%," + id + ",%", "," + list + ",")
  }

  /** A listed id always passes the test, whatever wildcards it contains. */
  lemma {:induction false} MembersPassTheTest(fold: bool, list: string, id: string)
    requires id in Split(list)
    ensures Listed(fold, list, id)
  {
    var i :| 0 <= i < |Split(list)| && Split(list)[i] == id;
    PadSplit(list);
    var a, b := PadAt(Split(list), i);
    PaddedMatches(fold, id, id, a, b);
    LikeSelf(fold, id);
    PaddedMatches(fold, id, id, a, b);
  }

  lemma PaddedMatches(fold: bool, p: string, x: string, a: string, b: string)
    ensures Like(fold, p, x) ==> Like(fold, "%," + p + ",%", a + ("," + x + ",") + b)
  {
    if Like(fold, p, x) {
      LikeSelf(fold, ",");
      LikeConcat(fold, ",", ",", p, x);
      LikeConcat(fold, "," + p, "," + x, ",", ",");
      PercentMatchesAll(fold, a);
      PercentMatchesAll(fold, b);
      LikeConcat(fold, "%", a, "," + p + ",", "," + x + ",");
      LikeConcat(fold, "%" + ("," + p + ","), a + ("," + x + ","), "%", b);
      assert "%" + ("," + p + ",") + "%" == "%," + p + ",%";
    }
  }

  /** For an id of plain characters the test is exactly membership. */
  lemma {:induction false} PlainIdsAreTestedExactly(fold: bool, list: string, id: string)
    requires AllPlain(fold, id) && ',' !in id
    ensures Listed(fold, list, id) <==> id in Split(list)
  {
    if id in Split(list) {
      MembersPassTheTest(fold, list, id);
    }
    if Listed(fold, list, id) {
      var lit := "," + id + ",";
      assert "%" + lit + "%" == "%," + id + ",%";
      assert forall i :: 0 <= i < |lit| ==> lit[i] == ',' || lit[i] in id;
      var a, b := PlainInfix(fold, lit, "," + list + ",");
      FoundBetweenCommas(list, a, id, b);
    }
  }

  lemma {:induction false} SplitPadded(list: string)
    ensures Split("," + list + ",") == [""] + (Split(list) + [""])
  {
    SplitConcat("", list + ",");
    SplitConcat(list, "");
    assert "" + "," + (list + "," + "") == "," + list + ",";
  }

  lemma {:induction false} SplitAround(a: string, id: string, b: string)
    requires ',' !in id
    ensures Split(a + ("," + id + ",") + b) == Split(a) + ([id] + Split(b))
  {
    SplitConcat(a, id + "," + b);
    SplitConcat(id, b);
    SplitOne(id);
    assert a + "," + (id + "," + b) == a + ("," + id + ",") + b;
  }

  lemma InTheMiddle(items: seq<string>, p: seq<string>, id: string, q: seq<string>)
    requires [""] + (items + [""]) == p + ([id] + q) && p != [] && q != []
    ensures id in items
  {
    var all := [""] + (items + [""]);
    assert all[|p|] == id;
    assert items[|p| - 1] == all[|p|];
  }

  lemma {:induction false} FoundBetweenCommas(list: string, a: string, id: string, b: string)
    requires "," + list + "," == a + ("," + id + ",") + b && ',' !in id
    ensures id in Split(list)
  {
    SplitPadded(list);
    SplitAround(a, id, b);
    InTheMiddle(Split(list), Split(a), id, Split(b));
  }

  /**
   The test is exact for an id, whatever the list, if and only if the id has no wildcard and, where
   case is folded, no letter.
   */
  lemma TestIsExactIff(fold: bool, id: string)
    requires ',' !in id
    ensures (forall list :: Listed(fold, list, id) <==> id in Split(list)) <==> AllPlain(fold, id)
  {
    if AllPlain(fold, id) {
      forall list ensures Listed(fold, list, id) <==> id in Split(list) {
        PlainIdsAreTestedExactly(fold, list, id);
      }
    } else {
      var i :| 0 <= i < |id| && !Plain(fold, id[i]);
      var d := if IsWildcard(id[i]) then 'x' else OtherCase(id[i]);
      LookAlike(fold, id, i, d);
    }
  }

  /** A different id that the test takes for this one. */
  lemma LookAlike(fold: bool, id: string, i: nat, d: char)
    requires i < |id| && ',' !in id && d != ',' && d != id[i] && (IsWildcard(id[i]) || SameChar(fold, id[i], d))
    ensures Listed(fold, id[i := d], id) && id !in Split(id[i := d])
  {
    var other := id[i := d];
    LikeChanged(fold, id, i, d);
    PaddedMatches(fold, id, other, "", "");
    assert "" + ("," + other + ",") + "" == "," + other + ",";
    SplitOne(other);
    assert other[i] != id[i];
  }

  // ---- Sanitising ----

  predicate IsSpace(c: char) {
    '\t' <= c <= '\r' || c == ' ' || c as int in {0x85, 0xA0, 0x1680, 0x2028, 0x2029, 0x202F, 0x205F, 0x3000}
    || 0x2000 <= c as int <= 0x200A
  }

  function TrimLeft(s: string): string {
    if s != [] && IsSpace(s[0]) then TrimLeft(s[1..]) else s
  }

  function TrimRight(s: string): string {
    if s != [] && IsSpace(s[|s| - 1]) then TrimRight(s[..|s| - 1]) else s
  }

  function NoCommas(s: string): (r: string)
    ensures |r| == |s| && ',' !in r
  {
    if s == [] then [] else [if s[0] == ',' then '_' else s[0]] + NoCommas(s[1..])
  }

  /** The id that is stored: never empty, never with a comma. */
  function Sanitized(id: string): (r: string)
    ensures r != "" && ',' !in r
  {
    var safe := NoCommas(TrimRight(TrimLeft(id)));
    if safe == "" then "unknown" else safe
  }

  predicate AllSpaces(s: string) { forall i :: 0 <= i < |s| ==> IsSpace(s[i]) }

  lemma {:induction false} TrimmedLeft(s: string) returns (a: string)
    ensures s == a + TrimLeft(s) && AllSpaces(a)
  {
    if s != [] && IsSpace(s[0]) {
      var rest := TrimmedLeft(s[1..]);
      a := [s[0]] + rest;
    } else {
      a := "";
    }
  }

  lemma {:induction false} TrimmedRight(s: string) returns (b: string)
    ensures s == TrimRight(s) + b && AllSpaces(b)
  {
    if s != [] && IsSpace(s[|s| - 1]) {
      var rest := TrimmedRight(s[..|s| - 1]);
      b := rest + [s[|s| - 1]];
    } else {
      b := "";
    }
  }

  /**
   What is stored for an agent: its name without the spaces around it, every comma an underscore and every
   other character as it is, or "unknown" if nothing is left.
   */
  lemma {:induction false} SanitizedIsTheTrimmedName(id: string) returns (a: string, name: string, b: string)
    ensures id == a + name + b && AllSpaces(a) && AllSpaces(b)
    ensures name != "" ==> !IsSpace(name[0]) && !IsSpace(name[|name| - 1]) && |Sanitized(id)| == |name|
    ensures name != "" ==> forall i :: 0 <= i < |name| ==> Sanitized(id)[i] == if name[i] == ',' then '_' else name[i]
    ensures name == "" ==> Sanitized(id) == "unknown"
  {
    a := TrimmedLeft(id);
    b := TrimmedRight(TrimLeft(id));
    name := TrimRight(TrimLeft(id));
    TrimLeftEnds(id);
    TrimRightEnds(TrimLeft(id));
    forall i | 0 <= i < |name| ensures NoCommas(name)[i] == if name[i] == ',' then '_' else name[i] {
      NoCommasAt(name, i);
    }
  }

  // ---- The upsert ----

  function WithoutCommas(s: string): string {
    if s == [] then [] else (if s[0] == ',' then [] else [s[0]]) + WithoutCommas(s[1..])
  }

  function CommaCount(s: string): int { |s| - |WithoutCommas(s)| }

  lemma {:induction false} CommasSeparateItems(s: string)
    ensures CommaCount(s) == |Split(s)| - 1
  {
    if s != [] {
      CommasSeparateItems(s[1..]);
    }
  }

  /** The CASE expression: the list after a request by the (sanitized) id. */
  function Extend(fold: bool, list: string, id: string): string {
    if id == "" || id == "unknown" then list
    else if list == id then list
    else if Listed(fold, list, id) then list
    else if CommaCount(list) >= 19 then list
    else list + "," + id
  }

  const MAX_AGENTS: nat := 20

  /** Distinct, non-empty items, at most twenty. */
  ghost predicate WellFormed(list: string) {
    var items := Split(list);
    && |items| <= MAX_AGENTS
    && (forall i :: 0 <= i < |items| ==> items[i] != "")
    && (forall i, j :: 0 <= i < j < |items| ==> items[i] != items[j])
  }

  /** One request keeps the list well formed and only ever adds the id at its end. */
  lemma {:induction false} ExtendKeeps(fold: bool, list: string, id: string)
    requires WellFormed(list) && id != "" && ',' !in id
    ensures WellFormed(Extend(fold, list, id))
    ensures Split(Extend(fold, list, id)) == Split(list) || Split(Extend(fold, list, id)) == Split(list) + [id]
  {
    var r := Extend(fold, list, id);
    if r != list {
      SplitConcat(list, id);
      SplitOne(id);
      CommasSeparateItems(list);
      assert id !in Split(list) by {
        if id in Split(list) { MembersPassTheTest(fold, list, id); }
      }
    }
  }

  /** The session's list after a sequence of requests, the first of which creates the row. */
  function AfterRequests(fold: bool, ids: seq<string>): string
    requires ids != []
  {
    if |ids| == 1 then Sanitized(ids[0])
    else Extend(fold, AfterRequests(fold, ids[..|ids| - 1]), Sanitized(ids[|ids| - 1]))
  }

  lemma {:induction false} ListStaysWellFormed(fold: bool, ids: seq<string>)
    requires ids != []
    ensures WellFormed(AfterRequests(fold, ids))
  {
    if |ids| == 1 {
      SplitOne(Sanitized(ids[0]));
    } else {
      var init := ids[..|ids| - 1];
      ListStaysWellFormed(fold, init);
      ExtendKeeps(fold, AfterRequests(fold, init), Sanitized(ids[|ids| - 1]));
    }
  }

  /** Every earlier list is a prefix of every later one. */
  lemma {:induction false} ListOnlyGrows(fold: bool, ids: seq<string>, n: nat)
    requires 1 <= n <= |ids|
    ensures Split(AfterRequests(fold, ids[..n])) <= Split(AfterRequests(fold, ids))
    decreases |ids|
  {
    if n == |ids| {
      assert ids[..n] == ids;
    } else {
      var init := ids[..|ids| - 1];
      assert init[..n] == ids[..n];
      ListOnlyGrows(fold, init, n);
      ListStaysWellFormed(fold, init);
      ExtendKeeps(fold, AfterRequests(fold, init), Sanitized(ids[|ids| - 1]));
    }
  }

  /**
   A plain, named agent is on the list after its request exactly if it was there before or there was
   room for it.
   */
  lemma {:induction false} PlainAgentIsRecordedIff(fold: bool, list: string, id: string)
    requires WellFormed(list) && id != "" && id != "unknown" && ',' !in id && AllPlain(fold, id)
    ensures id in Split(Extend(fold, list, id)) <==> id in Split(list) || |Split(list)| < MAX_AGENTS
  {
    ExtendKeeps(fold, list, id);
    PlainIdsAreTestedExactly(fold, list, id);
    CommasSeparateItems(list);
    SplitConcat(list, id);
    SplitOne(id);
  }

  /** Nameless agents never join a list that somebody began. */
  lemma NamelessIsNeverAdded(fold: bool, ids: seq<string>)
    requires ids != [] && Sanitized(ids[|ids| - 1]) == "unknown" && |ids| > 1
    ensures AfterRequests(fold, ids) == AfterRequests(fold, ids[..|ids| - 1])
  {
  }

  /** A named agent is sure to be recorded where there is room exactly if its sanitised id is plain. */
  lemma {:induction false} RecordedWhereRoomIff(fold: bool, id: string)
    requires id != "" && id != "unknown" && ',' !in id
    ensures (forall list :: WellFormed(list) && |Split(list)| < MAX_AGENTS ==> id in Split(Extend(fold, list, id))) <==> AllPlain(fold, id)
  {
    if AllPlain(fold, id) {
      forall list | WellFormed(list) && |Split(list)| < MAX_AGENTS ensures id in Split(Extend(fold, list, id)) {
        PlainAgentIsRecordedIff(fold, list, id);
      }
    } else {
      var i :| 0 <= i < |id| && !Plain(fold, id[i]);
      var d := if IsWildcard(id[i]) then 'x' else OtherCase(id[i]);
      LookAlike(fold, id, i, d);
      SplitOne(id[i := d]);
      assert WellFormed(id[i := d]) && Extend(fold, id[i := d], id) == id[i := d];
    }
  }

  // ---- Names with commas ----

  predicate Trimmed(s: string) { s != "" ==> !IsSpace(s[0]) && !IsSpace(s[|s| - 1]) }

  lemma {:induction false} TrimLeftEnds(s: string)
    ensures var r := TrimLeft(s); r != "" ==> !IsSpace(r[0])
    ensures s != "" && !IsSpace(s[0]) ==> TrimLeft(s) == s
  {
    if s != [] && IsSpace(s[0]) {
      TrimLeftEnds(s[1..]);
    }
  }

  lemma {:induction false} TrimRightEnds(s: string)
    ensures var r := TrimRight(s); r <= s && (r != "" ==> !IsSpace(r[|r| - 1]))
    ensures s != "" && !IsSpace(s[|s| - 1]) ==> TrimRight(s) == s
  {
    if s != [] && IsSpace(s[|s| - 1]) {
      TrimRightEnds(s[..|s| - 1]);
    }
  }

  lemma {:induction false} NoCommasAt(s: string, i: nat)
    requires i < |s|
    ensures NoCommas(s)[i] == if s[i] == ',' then '_' else s[i]
  {
    if i > 0 {
      NoCommasAt(s[1..], i - 1);
    }
  }

  lemma {:induction false} SanitizedTrims(id: string)
    ensures Trimmed(Sanitized(id))
  {
    var t := TrimRight(TrimLeft(id));
    TrimLeftEnds(id);
    TrimRightEnds(TrimLeft(id));
    if t != "" {
      NoCommasAt(t, 0);
      NoCommasAt(t, |t| - 1);
    }
  }

  lemma {:induction false} SanitizedStable(s: string)
    requires s != "" && ',' !in s && Trimmed(s)
    ensures Sanitized(s) == s
  {
    TrimLeftEnds(s);
    TrimRightEnds(s);
    var r := NoCommas(s);
    forall i | 0 <= i < |s| ensures r[i] == s[i] {
      NoCommasAt(s, i);
    }
  }

  /**
   Commas become underscores, which the test reads as wildcards: for every agent name with a comma in it
   there is another agent such that a session begun by that one never records this one.
   */
  lemma {:induction false} CommaNamesGetLost(fold: bool, id: string)
    requires ',' in TrimRight(TrimLeft(id))
    ensures exists other ::
      && Sanitized(other) != Sanitized(id)
      && AfterRequests(fold, [other, id]) == Sanitized(other)
      && Sanitized(id) !in Split(AfterRequests(fold, [other, id]))
  {
    var t, safe := TrimRight(TrimLeft(id)), Sanitized(id);
    var i :| 0 <= i < |t| && t[i] == ',';
    NoCommasAt(t, i);
    assert safe == NoCommas(t) && safe[i] == '_';
    var other := safe[i := 'x'];
    LookAlike(fold, safe, i, 'x');
    SanitizedTrims(id);
    assert Trimmed(other) && ',' !in other;
    SanitizedStable(other);
    assert [other, id][..1] == [other];
    assert AfterRequests(fold, [other]) == other;
    assert AfterRequests(fold, [other, id]) == Extend(fold, other, safe) == other;
    assert other[i] != safe[i];
  }
}
