/** The dedupe of a guest-list import: one key per name, first come first kept. */
module Imports {
  import opened Prelude
  import opened Store

  /** One mapped line of the file. */
  datatype Line = Line(firstName: string, lastName: string, maxPlusOnes: int)

  function TrimStart(text: string): string {
    if text != "" && IsSpace(text[0]) then TrimStart(text[1..]) else text
  }

  function TrimEnd(text: string): string {
    if text != "" && IsSpace(text[|text| - 1]) then TrimEnd(text[..|text| - 1]) else text
  }

  function Trim(text: string): string {
    TrimEnd(TrimStart(text))
  }

  function KeyOf(firstName: string, lastName: string): string {
    firstName + "-" + lastName
  }

  function LineKey(line: Line): string {
    KeyOf(Trim(line.firstName), Trim(line.lastName))
  }

  function LineRow(event: EventId, actor: UserId, line: Line): Row {
    BlankRow(PRIVATE, event, Trim(line.firstName), Trim(line.lastName)).(
      maxInvitees := line.maxPlusOnes, inviter := Some(actor))
  }

  /** The names the event's invitations already use. */
  function KeysOf(rows: Rows, event: EventId): set<string> {
    set id | id in rows && rows[id].event == event :: KeyOf(rows[id].firstName, rows[id].lastName)
  }

  /** The line at `k` is new: its key is neither stored nor the key of an earlier line. */
  predicate IsNew(keys: set<string>, lines: seq<Line>, k: nat)
    requires k < |lines|
  {
    LineKey(lines[k]) !in keys && forall j | 0 <= j < k :: LineKey(lines[j]) != LineKey(lines[k])
  }

  function Kept(keys: set<string>, lines: seq<Line>): seq<Line>
    decreases |lines|
  {
    if lines == [] then []
    else
      var k := |lines| - 1;
      Kept(keys, lines[..k]) + if IsNew(keys, lines, k) then [lines[k]] else []
  }

  function DisplayName(line: Line): string {
    Trim(line.firstName) + " " + Trim(line.lastName)
  }

  function Duplicates(keys: set<string>, lines: seq<Line>): seq<string>
    decreases |lines|
  {
    if lines == [] then []
    else
      var k := |lines| - 1;
      Duplicates(keys, lines[..k]) + if IsNew(keys, lines, k) then [] else [DisplayName(lines[k])]
  }

  function LineRows(event: EventId, actor: UserId, lines: seq<Line>): seq<Row> {
    seq(|lines|, i requires 0 <= i < |lines| => LineRow(event, actor, lines[i]))
  }

  /** The store after the lines in `kept` were imported. */
  function Imported(s: State, event: EventId, actor: UserId, kept: seq<Line>): State {
    InsertAll(s, LineRows(event, actor, kept))
  }

  /** The required fields the file lacks, with the line's number in the file: the header is line 1. */
  function MissingFields(lines: seq<Line>): seq<(nat, string)>
    decreases |lines|
  {
    if lines == [] then []
    else
      var k := |lines| - 1;
      MissingFields(lines[..k])
      + (if lines[k].firstName == "" then [(k + 2, "firstName")] else [])
      + (if lines[k].lastName == "" then [(k + 2, "lastName")] else [])
  }

  /** The import of a file: nothing if a line lacks a name, otherwise every line with a new name. */
  function ImportFile(s: State, event: EventId, actor: UserId, lines: seq<Line>): State {
    if MissingFields(lines) != [] then s
    else Imported(s, event, actor, Kept(KeysOf(s.rows, event), lines))
  }

  /** The keys in use once the kept lines are stored. */
  function KeysAfter(keys: set<string>, lines: seq<Line>): set<string> {
    keys + set k | 0 <= k < |lines| :: LineKey(lines[k])
  }

  /** A file passes exactly when every line has both names. */
  lemma {:induction false} NothingMissing(lines: seq<Line>)
    ensures MissingFields(lines) == []
       <==> forall k | 0 <= k < |lines| :: lines[k].firstName != "" && lines[k].lastName != ""
    decreases |lines|
  {
    if lines != [] {
      var init := lines[..|lines| - 1];
      NothingMissing(init);
      assert forall k | 0 <= k < |init| :: init[k] == lines[k];
    }
  }

  /** Every line is either imported or reported as a duplicate. */
  lemma {:induction false} EveryLineCounts(keys: set<string>, lines: seq<Line>)
    ensures |Kept(keys, lines)| + |Duplicates(keys, lines)| == |lines|
    decreases |lines|
  {
    if lines != [] {
      EveryLineCounts(keys, lines[..|lines| - 1]);
    }
  }

  lemma KeptLast(keys: set<string>, lines: seq<Line>)
    requires lines != []
    ensures var k := |lines| - 1;
      Kept(keys, lines) == if IsNew(keys, lines, k) then Kept(keys, lines[..k]) + [lines[k]] else Kept(keys, lines[..k])
  {
  }

  /** Nothing is kept exactly when every line's key was already taken. */
  lemma {:induction false} NothingKeptIffAllKnown(keys: set<string>, lines: seq<Line>)
    ensures Kept(keys, lines) == [] <==> forall k | 0 <= k < |lines| :: LineKey(lines[k]) in keys
    decreases |lines|
  {
    hide LineKey;
    hide Kept;
    if lines == [] {
      NoneOfNone(keys);
    } else {
      var last := |lines| - 1;
      var init := lines[..last];
      KeptLast(keys, lines);
      NothingKeptIffAllKnown(keys, init);
      if Kept(keys, init) == [] {
        forall k | 0 <= k < last ensures LineKey(lines[k]) in keys {
          assert init[k] == lines[k];
        }
      } else {
        var k :| 0 <= k < |init| && LineKey(init[k]) !in keys;
        assert lines[k] == init[k];
      }
    }
  }

  lemma NoneOfNone(keys: set<string>)
    ensures Kept(keys, []) == []
  {
  }

  /** A key is stored once: kept lines have new keys, all different. */
  lemma {:induction false} KeptKeysAreNew(keys: set<string>, lines: seq<Line>)
    ensures var kept := Kept(keys, lines);
      && (forall line | line in kept :: line in lines && LineKey(line) !in keys)
      && (forall j, k | 0 <= j < k < |kept| :: LineKey(kept[j]) != LineKey(kept[k]))
    decreases |lines|
  {
    if lines != [] {
      var last := |lines| - 1;
      var init, kept := lines[..last], Kept(keys, lines[..last]);
      KeptKeysAreNew(keys, init);
      assert forall line | line in init :: line in lines;
      assert Kept(keys, lines) == if IsNew(keys, lines, last) then kept + [lines[last]] else kept;
      if IsNew(keys, lines, last) {
        forall line | line in init ensures LineKey(line) != LineKey(lines[last]) {
          var i :| 0 <= i < last && lines[i] == line;
        }
        forall j | 0 <= j < |kept| ensures LineKey(kept[j]) != LineKey(lines[last]) {
          assert kept[j] in init;
        }
      }
    }
  }

  /** And every key of the file is in use afterwards. */
  lemma {:induction false} KeptKeysCover(keys: set<string>, lines: seq<Line>)
    ensures KeysAfter(keys, Kept(keys, lines)) == KeysAfter(keys, lines)
    decreases |lines|
  {
    if lines != [] {
      var last := |lines| - 1;
      var init, kept := lines[..last], Kept(keys, lines[..last]);
      KeptKeysCover(keys, init);
      KeysOfLast(keys, init, lines[last]);
      assert init + [lines[last]] == lines;
      if IsNew(keys, lines, last) {
        KeysOfLast(keys, kept, lines[last]);
      } else {
        KnownKey(keys, lines);
        assert Kept(keys, lines) == kept;
      }
    }
  }

  lemma KeysOfLast(keys: set<string>, init: seq<Line>, last: Line)
    ensures KeysAfter(keys, init + [last]) == KeysAfter(keys, init) + {LineKey(last)}
  {
    var lines := init + [last];
    forall key ensures key in KeysAfter(keys, lines) <==> key in KeysAfter(keys, init) || key == LineKey(last) {
      if key in KeysAfter(keys, init) && key !in keys {
        var k :| 0 <= k < |init| && key == LineKey(init[k]);
        assert lines[k] == init[k];
      }
      assert lines[|init|] == last;
    }
  }

  lemma KnownKey(keys: set<string>, lines: seq<Line>)
    requires lines != [] && !IsNew(keys, lines, |lines| - 1)
    ensures LineKey(lines[|lines| - 1]) in KeysAfter(keys, lines[..|lines| - 1])
  {
  }

  lemma StoredAt(s: State, event: EventId, actor: UserId, kept: seq<Line>, k: nat)
    requires k < |kept|
    ensures var t := Imported(s, event, actor, kept).rows;
      && s.nextId + k in t && t[s.nextId + k].event == event
      && KeyOf(t[s.nextId + k].firstName, t[s.nextId + k].lastName) == LineKey(kept[k])
  {
    var rs := LineRows(event, actor, kept);
    assert rs[k] == LineRow(event, actor, kept[k]);
    InsertedAt(s, rs, k);
  }

  lemma NothingElseStored(s: State, event: EventId, actor: UserId, kept: seq<Line>, id: Id)
    requires id in Imported(s, event, actor, kept).rows
    ensures s.nextId <= id < s.nextId + |kept|
         || (id in s.rows && Imported(s, event, actor, kept).rows[id] == s.rows[id])
  {
  }

  lemma OldRowStored(s: State, event: EventId, actor: UserId, kept: seq<Line>, id: Id)
    requires id in s.rows && id < s.nextId
    ensures id in Imported(s, event, actor, kept).rows && Imported(s, event, actor, kept).rows[id] == s.rows[id]
  {
    InsertAllKeepsOld(s, LineRows(event, actor, kept), id);
  }

  /** The names in use after the import are those before it and those of the kept lines. */
  lemma StoredKeys(s: State, event: EventId, actor: UserId, kept: seq<Line>)
    requires forall id | id in s.rows :: id < s.nextId
    ensures KeysOf(Imported(s, event, actor, kept).rows, event) == KeysAfter(KeysOf(s.rows, event), kept)
  {
    hide Imported;
    hide LineKey;
    hide KeyOf;
    var t, keys := Imported(s, event, actor, kept).rows, KeysOf(s.rows, event);
    forall key | key in KeysOf(t, event) ensures key in KeysAfter(keys, kept) {
      var id :| id in t && t[id].event == event && key == KeyOf(t[id].firstName, t[id].lastName);
      NothingElseStored(s, event, actor, kept, id);
      if s.nextId <= id < s.nextId + |kept| {
        StoredAt(s, event, actor, kept, id - s.nextId);
      }
    }
    forall key | key in KeysAfter(keys, kept) ensures key in KeysOf(t, event) {
      if key in keys {
        var id :| id in s.rows && s.rows[id].event == event && key == KeyOf(s.rows[id].firstName, s.rows[id].lastName);
        OldRowStored(s, event, actor, kept, id);
      } else {
        var k :| 0 <= k < |kept| && key == LineKey(kept[k]);
        StoredAt(s, event, actor, kept, k);
        assert s.nextId + k in t;
      }
    }
  }

  /** Importing the same file again into the store it left adds nothing. */
  lemma ImportingTwiceAddsNothing(s: State, event: EventId, actor: UserId, lines: seq<Line>)
    requires forall id | id in s.rows :: id < s.nextId
    ensures var t := Imported(s, event, actor, Kept(KeysOf(s.rows, event), lines));
      Kept(KeysOf(t.rows, event), lines) == []
  {
    var keys := KeysOf(s.rows, event);
    StoredKeys(s, event, actor, Kept(keys, lines));
    KeptKeysCover(keys, lines);
    forall k | 0 <= k < |lines| ensures LineKey(lines[k]) in KeysAfter(keys, lines) {}
    NothingKeptIffAllKnown(KeysAfter(keys, lines), lines);
  }

  /** The longer first name is the shorter one, a hyphen and the start of the last name that goes with the shorter. */
  ghost predicate Splits(a: string, b: string, c: string, d: string) {
    exists x :: c == a + "-" + x && b == x + "-" + d
  }

  lemma SplitKey(a: string, b: string, c: string, d: string, x: string)
    requires c == a + "-" + x && b == x + "-" + d
    ensures KeyOf(a, b) == KeyOf(c, d)
  {
    assert a + "-" + (x + "-" + d) == (a + "-" + x) + "-" + d;
  }

  lemma {:induction false} SameKeySplits(a: string, b: string, c: string, d: string)
    requires |a| <= |c| && KeyOf(a, b) == KeyOf(c, d)
    ensures (a == c && b == d) || Splits(a, b, c, d)
    decreases |a|
  {
    var key := KeyOf(a, b);
    if a == "" {
      assert key[0] == '-' && key[1..] == b;
      if c == "" {
        assert key[1..] == d;
      } else {
        assert key[0] == c[0] && key[1..] == KeyOf(c[1..], d);
        assert c == a + "-" + c[1..] && b == c[1..] + "-" + d;
      }
    } else {
      assert key[0] == a[0] && key[1..] == KeyOf(a[1..], b);
      assert key[0] == c[0] && key[1..] == KeyOf(c[1..], d);
      SameKeySplits(a[1..], b, c[1..], d);
      if Splits(a[1..], b, c[1..], d) {
        var x :| c[1..] == a[1..] + "-" + x && b == x + "-" + d;
        assert c == [c[0]] + c[1..] && a == [a[0]] + a[1..];
        assert c == a + "-" + x;
      }
    }
  }

  /**
   Two different names share a key if and only if one is the other split at a later hyphen: with x the text between
   the two hyphens, "a" + "x-d" and "a-x" + "d".  So names without a common hyphen to move never collide.
   */
  lemma KeysCollideExactlyAtHyphens(a: string, b: string, c: string, d: string)
    ensures KeyOf(a, b) == KeyOf(c, d) && (a != c || b != d) <==> Splits(a, b, c, d) || Splits(c, d, a, b)
  {
    if KeyOf(a, b) == KeyOf(c, d) {
      if |a| <= |c| {
        SameKeySplits(a, b, c, d);
      } else {
        SameKeySplits(c, d, a, b);
      }
    }
    if Splits(a, b, c, d) {
      var x :| c == a + "-" + x && b == x + "-" + d;
      SplitKey(a, b, c, d, x);
    }
    if Splits(c, d, a, b) {
      var x :| a == c + "-" + x && d == x + "-" + b;
      SplitKey(c, d, a, b, x);
    }
  }

  function NameOf(line: Line): (string, string) {
    (Trim(line.firstName), Trim(line.lastName))
  }

  /** The names already taken when line `k` has its turn: stored for the event, or earlier in the file. */
  function NamesBefore(rows: Rows, event: EventId, lines: seq<Line>, k: nat): set<(string, string)>
    requires k <= |lines|
  {
    (set id | id in rows && rows[id].event == event :: (rows[id].firstName, rows[id].lastName))
    + set j | 0 <= j < k :: NameOf(lines[j])
  }

  ghost predicate Collide(n: (string, string), m: (string, string)) {
    Splits(n.0, n.1, m.0, m.1) || Splits(m.0, m.1, n.0, n.1)
  }

  /** A line is known by its key exactly when its name is, or collides with one that is. */
  lemma KnownByKey(rows: Rows, event: EventId, lines: seq<Line>, k: nat)
    requires k < |lines|
    ensures IsNew(KeysOf(rows, event), lines, k)
       <==> forall n | n in NamesBefore(rows, event, lines, k) :: KeyOf(n.0, n.1) != LineKey(lines[k])
  {
    var names := NamesBefore(rows, event, lines, k);
    forall id | id in rows && rows[id].event == event
      ensures (rows[id].firstName, rows[id].lastName) in names
    {
    }
    forall j | 0 <= j < k
      ensures NameOf(lines[j]) in names && KeyOf(NameOf(lines[j]).0, NameOf(lines[j]).1) == LineKey(lines[j])
    {
    }
  }

  /**
   A person whose name is neither stored nor earlier in the file is dropped as a duplicate all the same
   if and only if the name collides with one that is.
   */
  lemma DroppedExactlyOnCollision(rows: Rows, event: EventId, lines: seq<Line>, k: nat)
    requires k < |lines| && NameOf(lines[k]) !in NamesBefore(rows, event, lines, k)
    ensures !IsNew(KeysOf(rows, event), lines, k)
       <==> exists n :: n in NamesBefore(rows, event, lines, k) && Collide(n, NameOf(lines[k]))
  {
    var names, m := NamesBefore(rows, event, lines, k), NameOf(lines[k]);
    KnownByKey(rows, event, lines, k);
    forall n | n in names ensures KeyOf(n.0, n.1) == LineKey(lines[k]) <==> Collide(n, m) {
      KeysCollideExactlyAtHyphens(n.0, n.1, m.0, m.1);
    }
  }

  // ------------------------------------------------------ interrupted imports

  lemma {:induction false} KeptConcat(keys: set<string>, first: seq<Line>, rest: seq<Line>)
    ensures Kept(keys, first + rest) == Kept(keys, first) + Kept(KeysAfter(keys, first), rest)
    decreases |rest|
  {
    if rest == [] {
      assert first + rest == first;
    } else {
      var k := |rest| - 1;
      var all, init := first + rest, first + rest[..k];
      KeptConcat(keys, first, rest[..k]);
      assert all[..|all| - 1] == init && all[|all| - 1] == rest[k];
      NewInTheWhole(keys, first, rest, k);
    }
  }

  lemma NewInTheWhole(keys: set<string>, first: seq<Line>, rest: seq<Line>, k: nat)
    requires k < |rest|
    ensures IsNew(keys, first + rest, |first| + k) <==> IsNew(KeysAfter(keys, first), rest, k)
  {
    var all := first + rest;
    assert forall j | 0 <= j < |first| :: all[j] == first[j];
    assert forall j | 0 <= j <= k :: all[|first| + j] == rest[j];
    if IsNew(KeysAfter(keys, first), rest, k) {
      forall j | 0 <= j < |first| + k ensures LineKey(all[j]) != LineKey(rest[k]) {
        if j < |first| {
          assert LineKey(first[j]) in KeysAfter(keys, first);
        } else {
          assert all[j] == rest[j - |first|];
        }
      }
    }
  }

  /** Importing the whole file after an interruption stores exactly the lines that were still missing. */
  lemma RetryCompletesTheImport(keys: set<string>, lines: seq<Line>, k: nat)
    requires k <= |lines|
    ensures Kept(keys, lines[..k]) + Kept(KeysAfter(keys, Kept(keys, lines[..k])), lines) == Kept(keys, lines)
  {
    hide Kept;
    hide KeysAfter;
    var first, rest := lines[..k], lines[k..];
    var known := KeysAfter(keys, first);
    assert first + rest == lines;
    KeptKeysCover(keys, first);
    KeptConcat(keys, first, rest);
    KeptConcat(known, first, rest);
    OwnKeysAreKnown(keys, first);
    NothingKeptIffAllKnown(known, first);
  }

  lemma OwnKeysAreKnown(keys: set<string>, lines: seq<Line>)
    ensures forall k | 0 <= k < |lines| :: LineKey(lines[k]) in KeysAfter(keys, lines)
    ensures KeysAfter(KeysAfter(keys, lines), lines) == KeysAfter(keys, lines)
  {
  }

  /** It happens: the second of these two people is dropped as a duplicate. */
  lemma HyphensCollide()
    ensures var lines := [Line("Anna-Lena", "Maier", 0), Line("Anna", "Lena-Maier", 0)];
      |Kept({}, lines)| == 1 && |Duplicates({}, lines)| == 1
  {
    var first, second := Line("Anna-Lena", "Maier", 0), Line("Anna", "Lena-Maier", 0);
    var lines := [first, second];
    TrimmedName("Anna-Lena");
    TrimmedName("Maier");
    TrimmedName("Anna");
    TrimmedName("Lena-Maier");
    assert LineKey(first) == LineKey(second);
    assert lines[..1] == [first] && [first][..0] == [];
    assert IsNew({}, [first], 0);
    assert !IsNew({}, lines, 1) by {
      assert LineKey(lines[0]) == LineKey(lines[1]);
    }
    assert Kept({}, lines) == Kept({}, [first]) == Kept({}, []) + [first];
    EveryLineCounts({}, lines);
  }

  lemma TrimmedName(text: string)
    requires text != "" && !IsSpace(text[0]) && !IsSpace(text[|text| - 1])
    ensures Trim(text) == text
  {
  }
}
