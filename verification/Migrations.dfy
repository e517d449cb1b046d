/**
 The gate on migration files: what one accepted comparison of a head tree with its base means, and
 what any run of accepted comparisons keeps.  A tree maps the paths below the migrations directory
 to their blobs.
 */
module Migrations {
  import opened Strings
  import opened Wrappers
  import opened Sequences
  import opened StringOrder

  type Tree = map<string, string>

  /** A line of the name-status comparison of base and head. */
  datatype Change =
    | Added(path: string)
    | Deleted(path: string)
    | Modified(path: string)
    | Retyped(path: string)
    | Renamed(source: string, path: string)

  datatype Error =
    | InvalidFilename(path: string)
    | UnsoundContent(path: string)
    | ExistingChanged(path: string)
    | PinnedDiffers(path: string)
    | PrefixNotGreater(path: string, prefix: nat, maximum: nat)
    | DuplicatePrefixes

  /** The pinned historical files with their blobs, and the verdict on the SQL of an added file. */
  datatype Gate = Gate(pinned: map<string, string>, sound: (string, string) -> bool)

  // ---------------------------------------------------------------- file names

  predicate IsLower(c: char) { 'a' <= c <= 'z' }

  predicate IsNameChar(c: char) { IsDigit(c) || IsLower(c) || c == '_' }

  predicate IsSql(path: string) {
    |path| >= 4 && path[|path| - 4..] == ".sql"
  }

  predicate TopLevel(path: string) {
    '/' !in path
  }

  /** The last component of a path. */
  function BaseName(path: string): (name: string)
    ensures TopLevel(name)
  {
    if path == "" || path[|path| - 1] == '/' then ""
    else BaseName(path[..|path| - 1]) + [path[|path| - 1]]
  }

  lemma {:induction false} TopLevelIsItsName(path: string)
    requires TopLevel(path)
    ensures BaseName(path) == path
  {
    if path != "" {
      assert path[|path| - 1] in path;
      TopLevelIsItsName(path[..|path| - 1]);
    }
  }

  /** Three digits, possibly a letter, then an underscore and a description. */
  predicate IsMigrationName(name: string) {
    && |name| >= 9 && IsSql(name)
    && IsDigit(name[0]) && IsDigit(name[1]) && IsDigit(name[2])
    && var from := if IsLower(name[3]) then 4 else 3;
    && from + 6 <= |name| && name[from] == '_'
    && forall i :: from < i < |name| - 4 ==> IsNameChar(name[i])
  }

  function Digit(c: char): nat
    requires IsDigit(c)
  {
    (c - '0') as nat
  }

  function Prefix(name: string): nat
    requires IsMigrationName(name)
  {
    100 * Digit(name[0]) + 10 * Digit(name[1]) + Digit(name[2])
  }

  /** Names with a greater prefix sort later. */
  lemma GreaterPrefixIsLater(a: string, b: string)
    requires IsMigrationName(a) && IsMigrationName(b) && Prefix(a) < Prefix(b)
    ensures Less(a, b)
  {
    if a[0] == b[0] {
      assert a[1..][0] == a[1] && b[1..][0] == b[1];
      assert a[1..][1..][0] == a[2] && b[1..][1..][0] == b[2];
      assert Less(a[1..], b[1..]);
    } else {
      assert a[0] < b[0];
    }
  }

  /** The digits of a migration name, as they are written. */
  function NumberText(name: string): string
    requires IsMigrationName(name)
  {
    name[..3]
  }

  /** Prefixes are ordered as their texts are. */
  lemma PrefixOrderIsTextOrder(a: string, b: string)
    requires IsMigrationName(a) && IsMigrationName(b)
    ensures Prefix(a) < Prefix(b) <==> Less(NumberText(a), NumberText(b))
    ensures Prefix(a) == Prefix(b) <==> NumberText(a) == NumberText(b)
    ensures Prefix(a) > 0 <==> NumberText(a) != "000"
  {
    var x, y := NumberText(a), NumberText(b);
    assert Less(x, y) <==> x[0] < y[0] || (x[0] == y[0] && Less(x[1..], y[1..]));
    assert Less(x[1..], y[1..]) <==> x[1] < y[1] || (x[1] == y[1] && Less(x[1..][1..], y[1..][1..]));
    assert Less(x[1..][1..], y[1..][1..]) <==> x[2] < y[2] || (x[2] == y[2] && Less(x[1..][1..][1..], y[1..][1..][1..]));
    assert !Less(x[1..][1..][1..], y[1..][1..][1..]);
    assert x == [x[0], x[1], x[2]] && y == [y[0], y[1], y[2]];
  }

  /** A migration name is three digits, possibly one letter, an underscore, a description that is not
      empty, and the ending of an SQL file. */
  lemma MigrationNameIff(name: string)
    ensures IsMigrationName(name) <==> exists number, letter, rest :: IsComposed(name, number, letter, rest)
  {
    if IsMigrationName(name) {
      NameComposes(name);
    }
    hide IsMigrationName;
    if number, letter, rest :| IsComposed(name, number, letter, rest) {
      ComposedIsName(name, number, letter, rest);
    }
  }

  lemma NameComposes(name: string)
    requires IsMigrationName(name)
    ensures exists number, letter, rest :: IsComposed(name, number, letter, rest)
  {
    NameChars();
    var from := if IsLower(name[3]) then 4 else 3;
    hide IsDigit, IsLower, IsNameChar, DIGITS, LOWER;
    NamePieces(name, from);
    var number, letter, rest := name[..3], name[3..from], name[from + 1..|name| - 4];
    assert AllIn(number, DIGITS) && AllIn(letter, LOWER) && AllIn(rest, DIGITS + LOWER + "_");
    assert IsComposed(name, number, letter, rest);
  }

  lemma NamePieces(name: string, from: nat)
    requires 3 <= from && from + 5 <= |name| && name[from] == '_' && name[|name| - 4..] == ".sql"
    ensures name == name[..3] + name[3..from] + "_" + name[from + 1..|name| - 4] + ".sql"
  {
    assert name == name[..from] + [name[from]] + name[from + 1..|name| - 4] + name[|name| - 4..];
    assert name[..from] == name[..3] + name[3..from];
  }

  lemma ComposedIsName(name: string, number: string, letter: string, rest: string)
    requires IsComposed(name, number, letter, rest)
    ensures IsMigrationName(name)
  {
    NameChars();
    assert number[0] in number && number[1] in number && number[2] in number;
    assert letter != "" ==> letter[0] in letter;
    assert !IsLower('_');
    hide IsDigit, IsLower, IsNameChar;
    var from := 3 + |letter|;
    assert name[|name| - 4..] == ".sql" && name[from] == '_' && name[..3] == number;
    assert name[0] == number[0] && name[1] == number[1] && name[2] == number[2];
    assert letter != "" ==> name[3] == letter[0];
    forall i | from < i < |name| - 4 ensures IsNameChar(name[i]) {
      assert name[i] == rest[i - from - 1];
    }
  }

  predicate IsComposed(name: string, number: string, letter: string, rest: string) {
    && name == number + letter + "_" + rest + ".sql"
    && |number| == 3 && AllIn(number, DIGITS)
    && |letter| <= 1 && AllIn(letter, LOWER)
    && rest != "" && AllIn(rest, DIGITS + LOWER + "_")
  }

  lemma NameChars()
    ensures forall c: char :: IsDigit(c) <==> c in DIGITS
    ensures forall c: char :: IsLower(c) <==> c in LOWER
    ensures forall c: char :: IsNameChar(c) <==> c in DIGITS + LOWER + "_"
  {
    Alphabets();
    hide DIGITS, LOWER;
  }

  // ---------------------------------------------------------------- the gate

  /** An added file the gate numbers as new: not one of the pinned ones. */
  predicate IsFresh(gate: Gate, c: Change) {
    c.Added? && IsSql(c.path) && IsMigrationName(BaseName(c.path)) && c.path !in gate.pinned
  }

  predicate IsPinned(gate: Gate, head: Tree, c: Change) {
    && c.Added? && IsSql(c.path) && IsMigrationName(BaseName(c.path))
    && c.path in gate.pinned && c.path in head && head[c.path] == gate.pinned[c.path]
  }

  function PrefixOf(c: Change): nat
    requires IsMigrationName(BaseName(c.path))
  {
    Prefix(BaseName(c.path))
  }

  /** The file may enter: added, well named, sound, and unchanged when it is pinned. */
  predicate MayEnter(gate: Gate, head: Tree, c: Change) {
    && c.Added? && IsMigrationName(BaseName(c.path)) && c.path in head
    && gate.sound(c.path, head[c.path])
    && (c.path in gate.pinned ==> head[c.path] == gate.pinned[c.path])
  }

  /** What an accepted comparison satisfies. */
  predicate Accepts(gate: Gate, head: Tree, listing: seq<string>, baseFiles: seq<string>, changes: seq<Change>) {
    && (forall name <- listing :: IsMigrationName(name))
    && (forall c <- changes :: IsSql(c.path) ==> MayEnter(gate, head, c))
    && (forall c <- changes :: IsFresh(gate, c) ==>
          && PrefixOf(c) > 0
          && (forall f <- baseFiles :: IsMigrationName(BaseName(f)) ==> Prefix(BaseName(f)) < PrefixOf(c))
          && (forall p <- changes :: IsPinned(gate, head, p) ==> PrefixOf(p) < PrefixOf(c)))
    && DistinctSomes(FreshPrefixes(gate, changes))
  }

  /** The prefixes of the new files, at the places of their changes. */
  function FreshPrefixes(gate: Gate, changes: seq<Change>): seq<Option<nat>> {
    seq(|changes|, i requires 0 <= i < |changes| => if IsFresh(gate, changes[i]) then Some(PrefixOf(changes[i])) else None)
  }

  method CheckListing(listing: seq<string>) returns (errors: seq<Error>)
    ensures errors == [] <==> forall name <- listing :: IsMigrationName(name)
    ensures forall e :: e in errors <==> e.InvalidFilename? && e.path in listing && !IsMigrationName(e.path)
  {
    errors := [];
    for k := 0 to |listing|
      invariant errors == [] <==> forall i :: 0 <= i < k ==> IsMigrationName(listing[i])
      invariant forall e :: e in errors <==> e.InvalidFilename? && e.path in listing[..k] && !IsMigrationName(e.path)
    {
      assert listing[..k + 1] == listing[..k] + [listing[k]];
      if !IsMigrationName(listing[k]) {
        errors := errors + [InvalidFilename(listing[k])];
      }
    }
    assert listing[..|listing|] == listing;
  }

  /** The added SQL files, in order. */
  function AddedSql(changes: seq<Change>): seq<Change> {
    if changes == [] then [] else
    var last := changes[|changes| - 1];
    AddedSql(changes[..|changes| - 1]) + if IsSql(last.path) && last.Added? then [last] else []
  }

  /** An SQL file was changed in another way than by adding it. */
  predicate ChangeReported(changes: seq<Change>, e: Error) {
    e.ExistingChanged? && exists c <- changes :: c.path == e.path && IsSql(c.path) && !c.Added?
  }

  method CollectAdded(changes: seq<Change>) returns (added: seq<Change>, errors: seq<Error>)
    ensures added == AddedSql(changes)
    ensures errors == [] <==> forall c <- changes :: IsSql(c.path) ==> c.Added?
    ensures forall e :: e in errors <==> ChangeReported(changes, e)
  {
    added, errors := [], [];
    hide IsSql;
    for k := 0 to |changes|
      invariant added == AddedSql(changes[..k])
      invariant errors == [] <==> forall i :: 0 <= i < k && IsSql(changes[i].path) ==> changes[i].Added?
      invariant forall e :: e in errors <==> ChangeReported(changes[..k], e)
    {
      assert changes[..k + 1][..k] == changes[..k] && changes[..k + 1] == changes[..k] + [changes[k]];
      assert forall c :: c in changes[..k + 1] <==> c in changes[..k] || c == changes[k];
      if IsSql(changes[k].path) {
        if changes[k].Added? {
          added := added + [changes[k]];
        } else {
          errors := errors + [ExistingChanged(changes[k].path)];
        }
      }
    }
    assert changes[..|changes|] == changes;
  }

  /** The greatest of a prefix and those of the well-named files. */
  function MaxPrefix(files: seq<string>): nat {
    if files == [] then 0 else
    var before, name := MaxPrefix(files[..|files| - 1]), BaseName(files[|files| - 1]);
    if IsMigrationName(name) && Prefix(name) > before then Prefix(name) else before
  }

  lemma {:induction false} AboveMaxPrefix(files: seq<string>, prefix: nat)
    ensures MaxPrefix(files) < prefix <==>
            0 < prefix && forall f <- files :: IsMigrationName(BaseName(f)) ==> Prefix(BaseName(f)) < prefix
  {
    if files != [] {
      AboveMaxPrefix(files[..|files| - 1], prefix);
      hide Prefix, IsMigrationName, BaseName, MaxPrefix;
      MaxPrefixStep(files);
      assert files == files[..|files| - 1] + [files[|files| - 1]];
    }
  }

  lemma MaxPrefixStep(files: seq<string>)
    requires files != []
    ensures var before, name := MaxPrefix(files[..|files| - 1]), BaseName(files[|files| - 1]);
            MaxPrefix(files) == if IsMigrationName(name) && Prefix(name) > before then Prefix(name) else before
  {
  }

  method MaximumOfBase(baseFiles: seq<string>) returns (maximum: nat)
    ensures maximum == MaxPrefix(baseFiles)
  {
    maximum := 0;
    for k := 0 to |baseFiles|
      invariant maximum == MaxPrefix(baseFiles[..k])
    {
      assert baseFiles[..k + 1][..k] == baseFiles[..k];
      var name := BaseName(baseFiles[k]);
      if IsMigrationName(name) && Prefix(name) > maximum {
        maximum := Prefix(name);
      }
    }
    assert baseFiles[..|baseFiles|] == baseFiles;
  }

  function FreshOnes(gate: Gate, added: seq<Change>): seq<Change> {
    if added == [] then [] else
    FreshOnes(gate, added[..|added| - 1]) + if IsFresh(gate, added[|added| - 1]) then [added[|added| - 1]] else []
  }

  /** The greatest of a prefix and those of the pinned files among the added ones. */
  function MaxPinned(gate: Gate, head: Tree, added: seq<Change>, maxBase: nat): nat {
    if added == [] then maxBase else
    var before, last := MaxPinned(gate, head, added[..|added| - 1], maxBase), added[|added| - 1];
    if IsPinned(gate, head, last) && PrefixOf(last) > before then PrefixOf(last) else before
  }

  lemma {:induction false} AbovePinned(gate: Gate, head: Tree, added: seq<Change>, maxBase: nat, prefix: nat)
    ensures MaxPinned(gate, head, added, maxBase) < prefix <==>
            maxBase < prefix && forall c <- added :: IsPinned(gate, head, c) ==> PrefixOf(c) < prefix
  {
    if added != [] {
      AbovePinned(gate, head, added[..|added| - 1], maxBase, prefix);
      hide IsMigrationName, BaseName, Prefix, IsSql;
      assert added == added[..|added| - 1] + [added[|added| - 1]];
    }
  }

  /** What is reported of one added file: its name, or its content and whether it is as pinned. */
  predicate FileReported(gate: Gate, head: Tree, c: Change, e: Error)
    requires c.path in head
  {
    match e
    case InvalidFilename(path) => path == c.path && !IsMigrationName(BaseName(c.path))
    case UnsoundContent(path) => path == c.path && IsMigrationName(BaseName(c.path)) && !gate.sound(c.path, head[c.path])
    case PinnedDiffers(path) =>
      path == c.path && IsMigrationName(BaseName(c.path)) && c.path in gate.pinned && head[c.path] != gate.pinned[c.path]
    case _ => false
  }

  function FileErrors(gate: Gate, head: Tree, c: Change): seq<Error>
    requires c.path in head
  {
    if !IsMigrationName(BaseName(c.path)) then [InvalidFilename(c.path)]
    else
      var unsound := if !gate.sound(c.path, head[c.path]) then [UnsoundContent(c.path)] else [];
      var differs := if c.path in gate.pinned && head[c.path] != gate.pinned[c.path] then [PinnedDiffers(c.path)] else [];
      unsound + differs
  }

  lemma FileErrorsAre(gate: Gate, head: Tree, c: Change)
    requires c.path in head && c.Added?
    ensures FileErrors(gate, head, c) == [] <==> MayEnter(gate, head, c)
    ensures forall e :: e in FileErrors(gate, head, c) <==> FileReported(gate, head, c, e)
  {
    hide IsMigrationName, BaseName;
  }

  function AllFileErrors(gate: Gate, head: Tree, added: seq<Change>): seq<Error>
    requires forall c <- added :: c.path in head
  {
    if added == [] then [] else
    AllFileErrors(gate, head, added[..|added| - 1]) + FileErrors(gate, head, added[|added| - 1])
  }

  lemma {:induction false} AllFileErrorsAre(gate: Gate, head: Tree, added: seq<Change>)
    requires forall c <- added :: c.Added? && c.path in head
    ensures AllFileErrors(gate, head, added) == [] <==> forall c <- added :: MayEnter(gate, head, c)
    ensures forall e :: e in AllFileErrors(gate, head, added) <==> exists c <- added :: FileReported(gate, head, c, e)
  {
    if added != [] {
      hide FileErrors, FileReported, MayEnter;
      var init, last := added[..|added| - 1], added[|added| - 1];
      AllFileErrorsAre(gate, head, init);
      FileErrorsAre(gate, head, last);
      assert added == init + [last];
      assert forall c :: c in added <==> c in init || c == last;
    }
  }

  /** Validate the added files one by one: which are new, and the maximum their prefixes must exceed. */
  method NumberAdded(gate: Gate, head: Tree, added: seq<Change>, maxBase: nat)
    returns (newOnes: seq<Change>, maximum: nat, errors: seq<Error>)
    requires forall c <- added :: c.Added? && IsSql(c.path) && c.path in head
    ensures newOnes == FreshOnes(gate, added)
    ensures errors == [] <==> forall c <- added :: MayEnter(gate, head, c)
    ensures forall e :: e in errors <==> exists c <- added :: FileReported(gate, head, c, e)
    ensures maximum == MaxPinned(gate, head, added, maxBase)
  {
    newOnes, maximum, errors := [], maxBase, [];
    hide IsMigrationName, BaseName, Prefix, IsSql;
    for k := 0 to |added|
      invariant newOnes == FreshOnes(gate, added[..k])
      invariant errors == AllFileErrors(gate, head, added[..k])
      invariant maximum == MaxPinned(gate, head, added[..k], maxBase)
    {
      assert added[..k + 1][..k] == added[..k];
      var c := added[k];
      assert c in added;
      if !IsMigrationName(BaseName(c.path)) {
        errors := errors + [InvalidFilename(c.path)];
      } else {
        var prefix := Prefix(BaseName(c.path));
        if !gate.sound(c.path, head[c.path]) {
          errors := errors + [UnsoundContent(c.path)];
        }
        if c.path in gate.pinned {
          if head[c.path] != gate.pinned[c.path] {
            errors := errors + [PinnedDiffers(c.path)];
          } else {
            maximum := if prefix > maximum then prefix else maximum;
          }
        } else {
          newOnes := newOnes + [c];
        }
      }
    }
    assert added[..|added|] == added;
    AllFileErrorsAre(gate, head, added);
  }

  function Prefixes(changes: seq<Change>): seq<nat>
    requires forall c <- changes :: IsMigrationName(BaseName(c.path))
  {
    seq(|changes|, i requires 0 <= i < |changes| => PrefixOf(changes[i]))
  }

  lemma {:induction false} AddedSqlAre(changes: seq<Change>)
    ensures forall c :: c in AddedSql(changes) <==> c in changes && IsSql(c.path) && c.Added?
  {
    if changes != [] {
      AddedSqlAre(changes[..|changes| - 1]);
      hide IsSql;
      assert changes == changes[..|changes| - 1] + [changes[|changes| - 1]];
    }
  }

  lemma {:induction false} FreshOnesAre(gate: Gate, added: seq<Change>)
    ensures forall c :: c in FreshOnes(gate, added) <==> c in added && IsFresh(gate, c)
  {
    if added != [] {
      FreshOnesAre(gate, added[..|added| - 1]);
      hide IsFresh;
      assert added == added[..|added| - 1] + [added[|added| - 1]];
    }
  }

  predicate DistinctSomes(options: seq<Option<nat>>) {
    forall i, j :: 0 <= i < j < |options| && options[i].Some? ==> options[i] != options[j]
  }

  function Somes(options: seq<Option<nat>>): seq<nat> {
    if options == [] then [] else
    Somes(options[..|options| - 1]) +
    if options[|options| - 1].Some? then [options[|options| - 1].value] else []
  }

  lemma {:induction false} InSomes(options: seq<Option<nat>>, n: nat)
    ensures n in Somes(options) <==> Some(n) in options
  {
    if options != [] {
      InSomes(options[..|options| - 1], n);
      assert options == options[..|options| - 1] + [options[|options| - 1]];
    }
  }

  lemma {:induction false} DistinctSomesIff(options: seq<Option<nat>>)
    ensures DistinctSomes(options) <==> Distinct(Somes(options))
  {
    if options == [] {
      return;
    }
    var init, last := options[..|options| - 1], options[|options| - 1];
    assert options == init + [last];
    DistinctSomesIff(init);
    OneMoreSome(init, last);
    if last.Some? {
      InSomes(init, last.value);
      OneMoreDistinct(Somes(init), last.value);
    } else {
      assert Somes(init) + [] == Somes(init);
    }
  }

  lemma OneMoreSome(init: seq<Option<nat>>, last: Option<nat>)
    ensures DistinctSomes(init + [last]) <==> DistinctSomes(init) && (last.Some? ==> last !in init)
  {
    var all := init + [last];
    if DistinctSomes(all) {
      forall i, j | 0 <= i < j < |init| && init[i].Some? ensures init[i] != init[j] {
        assert init[i] == all[i] && init[j] == all[j];
      }
      forall i | 0 <= i < |init| && last.Some? ensures init[i] != last {
        assert init[i] == all[i] && all[|init|] == last;
      }
    }
  }

  lemma FreshOnesSnoc(gate: Gate, init: seq<Change>, last: Change)
    ensures FreshOnes(gate, AddedSql(init + [last])) ==
            FreshOnes(gate, AddedSql(init)) + if IsFresh(gate, last) then [last] else []
  {
    hide IsMigrationName, BaseName, IsSql;
    assert (init + [last])[..|init|] == init;
    var added := AddedSql(init);
    assert (added + [last])[..|added|] == added;
    assert added + [] == added && FreshOnes(gate, added) + [] == FreshOnes(gate, added);
  }

  lemma FreshPrefixesSnoc(gate: Gate, init: seq<Change>, last: Change)
    ensures Somes(FreshPrefixes(gate, init + [last])) ==
            Somes(FreshPrefixes(gate, init)) + if IsFresh(gate, last) then [PrefixOf(last)] else []
  {
    hide IsFresh, IsMigrationName, BaseName, Prefix;
    assert FreshPrefixes(gate, init + [last])[..|init|] == FreshPrefixes(gate, init);
  }

  lemma PrefixesSnoc(changes: seq<Change>, last: Change)
    requires forall c <- changes + [last] :: IsMigrationName(BaseName(c.path))
    ensures (forall c <- changes :: c in changes + [last]) && last in changes + [last]
    ensures Prefixes(changes + [last]) == Prefixes(changes) + [PrefixOf(last)]
  {
    assert forall c <- changes :: c in changes + [last];
    assert (changes + [last])[|changes|] == last;
  }

  lemma {:induction false} NewPrefixesAre(gate: Gate, changes: seq<Change>)
    ensures forall c <- FreshOnes(gate, AddedSql(changes)) :: IsMigrationName(BaseName(c.path))
    ensures Prefixes(FreshOnes(gate, AddedSql(changes))) == Somes(FreshPrefixes(gate, changes))
  {
    FreshOnesAre(gate, AddedSql(changes));
    if changes != [] {
      var init, last := changes[..|changes| - 1], changes[|changes| - 1];
      assert changes == init + [last];
      NewPrefixesAre(gate, init);
      hide IsMigrationName, BaseName, Prefix, IsSql, AddedSql, FreshOnes, FreshPrefixes, Somes;
      FreshOnesSnoc(gate, init, last);
      FreshPrefixesSnoc(gate, init, last);
      if IsFresh(gate, last) {
        PrefixesSnoc(FreshOnes(gate, AddedSql(init)), last);
      }
    }
  }

  method CheckPrefixes(newOnes: seq<Change>, maximum: nat) returns (errors: seq<Error>)
    requires forall c <- newOnes :: IsMigrationName(BaseName(c.path))
    ensures errors == [] <==> forall c <- newOnes :: maximum < PrefixOf(c)
    ensures forall e :: e in errors <==> exists c <- newOnes :: PrefixOf(c) <= maximum && e == PrefixNotGreater(c.path, PrefixOf(c), maximum)
  {
    errors := [];
    hide IsMigrationName, BaseName, Prefix;
    for k := 0 to |newOnes|
      invariant errors == [] <==> forall i :: 0 <= i < k ==> maximum < PrefixOf(newOnes[i])
      invariant forall e :: e in errors <==>
                  exists i :: 0 <= i < k && PrefixOf(newOnes[i]) <= maximum && e == PrefixNotGreater(newOnes[i].path, PrefixOf(newOnes[i]), maximum)
    {
      if PrefixOf(newOnes[k]) <= maximum {
        errors := errors + [PrefixNotGreater(newOnes[k].path, PrefixOf(newOnes[k]), maximum)];
      }
    }
  }

  /** The number is above those of all base files and of the pinned files that are added. */
  predicate IsAbove(gate: Gate, head: Tree, baseFiles: seq<string>, changes: seq<Change>, n: nat) {
    && 0 < n && (forall f <- baseFiles :: IsMigrationName(BaseName(f)) ==> Prefix(BaseName(f)) < n)
    && forall p <- changes :: IsPinned(gate, head, p) ==> PrefixOf(p) < n
  }

  /** The greatest of these numbers, or 0 when there is none. */
  ghost predicate IsMaximum(gate: Gate, head: Tree, baseFiles: seq<string>, changes: seq<Change>, maximum: nat) {
    forall n: nat :: IsAbove(gate, head, baseFiles, changes, n) <==> maximum < n
  }

  /** What the gate reports, and of which file. */
  ghost predicate Reported(gate: Gate, head: Tree, listing: seq<string>, baseFiles: seq<string>, changes: seq<Change>, e: Error) {
    || (e.InvalidFilename? && e.path in listing && !IsMigrationName(e.path))
    || ChangeReported(changes, e)
    || (exists c <- changes :: c.Added? && IsSql(c.path) && c.path in head && FileReported(gate, head, c, e))
    || (e.PrefixNotGreater? && e.prefix <= e.maximum && IsMaximum(gate, head, baseFiles, changes, e.maximum)
        && exists c <- changes :: IsFresh(gate, c) && e.path == c.path && e.prefix == PrefixOf(c))
    || (e.DuplicatePrefixes? && !DistinctSomes(FreshPrefixes(gate, changes)))
  }

  lemma MaximumIs(gate: Gate, head: Tree, baseFiles: seq<string>, changes: seq<Change>)
    ensures forall maximum: nat :: IsMaximum(gate, head, baseFiles, changes, maximum) <==>
              maximum == MaxPinned(gate, head, AddedSql(changes), MaxPrefix(baseFiles))
  {
    var added, maxBase := AddedSql(changes), MaxPrefix(baseFiles);
    AddedSqlAre(changes);
    hide IsMigrationName, BaseName, Prefix, IsSql, MaxPrefix, MaxPinned, AddedSql;
    var m := MaxPinned(gate, head, added, maxBase);
    forall n: nat ensures IsAbove(gate, head, baseFiles, changes, n) <==> m < n {
      AboveMaxPrefix(baseFiles, n);
      AbovePinned(gate, head, added, maxBase, n);
      assert forall p :: p in changes && IsPinned(gate, head, p) <==> p in added && IsPinned(gate, head, p);
    }
    forall maximum: nat | IsMaximum(gate, head, baseFiles, changes, maximum) ensures maximum == m {
      assert IsAbove(gate, head, baseFiles, changes, maximum + 1) && IsAbove(gate, head, baseFiles, changes, m + 1);
    }
  }

  /** The validation of a head tree against a base: `listing` holds the top-level SQL files of the
      head, `baseFiles` all paths of the base.  There is no error exactly when it is accepted. */
  method Validate(gate: Gate, head: Tree, listing: seq<string>, baseFiles: seq<string>, changes: seq<Change>)
    returns (errors: seq<Error>)
    requires forall c <- changes :: c.Added? ==> c.path in head
    ensures errors == [] <==> Accepts(gate, head, listing, baseFiles, changes)
    ensures forall e :: e in errors <==> Reported(gate, head, listing, baseFiles, changes, e)
  {
    hide IsMigrationName, BaseName, Prefix, IsSql, MaxPrefix, MaxPinned, AddedSql, FreshOnes, Distinct, DistinctSomes, FreshPrefixes, Somes;
    hide ChangeReported, FileReported, IsMaximum;
    var invalid := CheckListing(listing);
    var added, changed := CollectAdded(changes);
    AddedSqlAre(changes);
    var maxBase := MaximumOfBase(baseFiles);
    var newOnes, maximum, failed := NumberAdded(gate, head, added, maxBase);
    FreshOnesAre(gate, added);
    var low := CheckPrefixes(newOnes, maximum);
    var numbers := Prefixes(newOnes);
    var doubled := if |numbers| != |Elements(numbers)| then [DuplicatePrefixes] else [];
    DistinctIffAsManyElements(numbers);
    NewPrefixesAre(gate, changes);
    DistinctSomesIff(FreshPrefixes(gate, changes));
    errors := invalid + changed + failed + low + doubled;
    MaximumIs(gate, head, baseFiles, changes);
    forall e ensures e in errors <==> Reported(gate, head, listing, baseFiles, changes, e) {
      assert e in doubled <==> e.DuplicatePrefixes? && !DistinctSomes(FreshPrefixes(gate, changes));
      assert e in low <==> exists c <- newOnes :: PrefixOf(c) <= maximum && e == PrefixNotGreater(c.path, PrefixOf(c), maximum);
    }
    if changed == [] {
      forall c | c in newOnes
        ensures maximum < PrefixOf(c) <==>
                && 0 < PrefixOf(c)
                && (forall f <- baseFiles :: IsMigrationName(BaseName(f)) ==> Prefix(BaseName(f)) < PrefixOf(c))
                && (forall p <- added :: IsPinned(gate, head, p) ==> PrefixOf(p) < PrefixOf(c))
      {
        AboveMaxPrefix(baseFiles, PrefixOf(c));
        AbovePinned(gate, head, added, maxBase, PrefixOf(c));
      }
    }
  }

  // ---------------------------------------------------------------- the verdict, change by change

  /** A change that the gate would accept on its own: an SQL file is added under a migration name with
      sound content, and is pinned as it is or numbered above all files of the base. */
  predicate FitsAlone(gate: Gate, head: Tree, baseFiles: seq<string>, c: Change) {
    IsSql(c.path) ==>
      && c.Added? && IsMigrationName(BaseName(c.path)) && c.path in head && gate.sound(c.path, head[c.path])
      && if c.path in gate.pinned then head[c.path] == gate.pinned[c.path]
         else NumberText(BaseName(c.path)) != "000" && forall f <- baseFiles :: IsMigrationName(BaseName(f)) ==>
                Less(NumberText(BaseName(f)), NumberText(BaseName(c.path)))
  }

  /** Two added files that do not stand in each other's way: new ones have different numbers, and pinned
      ones lower numbers than new ones. */
  predicate FitTogether(gate: Gate, c: Change, d: Change) {
    IsSql(c.path) && IsSql(d.path) && IsMigrationName(BaseName(c.path)) && IsMigrationName(BaseName(d.path)) ==>
      var x, y := NumberText(BaseName(c.path)), NumberText(BaseName(d.path));
      if c.path in gate.pinned then d.path in gate.pinned || Less(x, y)
      else if d.path in gate.pinned then Less(y, x)
      else x != y
  }

  predicate AboveBase(baseFiles: seq<string>, c: Change)
    requires IsMigrationName(BaseName(c.path))
  {
    PrefixOf(c) > 0 && forall f <- baseFiles :: IsMigrationName(BaseName(f)) ==> Prefix(BaseName(f)) < PrefixOf(c)
  }

  lemma FreshFits(gate: Gate, head: Tree, baseFiles: seq<string>, c: Change)
    requires IsSql(c.path)
    ensures FitsAlone(gate, head, baseFiles, c) <==>
            && MayEnter(gate, head, c)
            && (IsFresh(gate, c) ==> AboveBase(baseFiles, c))
  {
    hide IsMigrationName, BaseName, Prefix, IsSql, NumberText, Less;
    if IsMigrationName(BaseName(c.path)) {
      PrefixOrderIsTextOrder(BaseName(c.path), BaseName(c.path));
      forall f | f in baseFiles && IsMigrationName(BaseName(f))
        ensures Prefix(BaseName(f)) < PrefixOf(c) <==> Less(NumberText(BaseName(f)), NumberText(BaseName(c.path)))
      {
        PrefixOrderIsTextOrder(BaseName(f), BaseName(c.path));
      }
    }
  }

  lemma PairFits(gate: Gate, head: Tree, c: Change, d: Change)
    requires IsSql(c.path) && IsSql(d.path) && MayEnter(gate, head, c) && MayEnter(gate, head, d)
    ensures FitTogether(gate, c, d) <==>
            && (IsFresh(gate, c) && IsFresh(gate, d) ==> PrefixOf(c) != PrefixOf(d))
            && (IsFresh(gate, c) && IsPinned(gate, head, d) ==> PrefixOf(d) < PrefixOf(c))
            && (IsFresh(gate, d) && IsPinned(gate, head, c) ==> PrefixOf(c) < PrefixOf(d))
  {
    hide IsMigrationName, BaseName, Prefix, IsSql, NumberText, Less;
    PrefixOrderIsTextOrder(BaseName(c.path), BaseName(d.path));
    PrefixOrderIsTextOrder(BaseName(d.path), BaseName(c.path));
  }

  /** A comparison is accepted if and only if the listing is well named, every change is accepted on its
      own, and every two changes are accepted together. */
  lemma AcceptedIffPairwise(gate: Gate, head: Tree, listing: seq<string>, baseFiles: seq<string>, changes: seq<Change>)
    ensures Accepts(gate, head, listing, baseFiles, changes) <==>
            && (forall name <- listing :: IsMigrationName(name))
            && (forall c <- changes :: FitsAlone(gate, head, baseFiles, c))
            && forall i, j :: 0 <= i < j < |changes| ==> FitTogether(gate, changes[i], changes[j])
  {
    hide IsMigrationName, BaseName, Prefix, IsSql, NumberText, FitsAlone, FitTogether, MayEnter;
    forall c | c in changes && IsSql(c.path)
      ensures FitsAlone(gate, head, baseFiles, c) <==>
              && MayEnter(gate, head, c)
              && (IsFresh(gate, c) ==> AboveBase(baseFiles, c))
    {
      FreshFits(gate, head, baseFiles, c);
    }
    OthersFit(gate, head, baseFiles, changes);
    if forall c <- changes :: IsSql(c.path) ==> MayEnter(gate, head, c) {
      forall i, j | 0 <= i < j < |changes| && IsSql(changes[i].path) && IsSql(changes[j].path)
        ensures FitTogether(gate, changes[i], changes[j]) <==>
                && (IsFresh(gate, changes[i]) && IsFresh(gate, changes[j]) ==> PrefixOf(changes[i]) != PrefixOf(changes[j]))
                && (IsFresh(gate, changes[i]) && IsPinned(gate, head, changes[j]) ==> PrefixOf(changes[j]) < PrefixOf(changes[i]))
                && (IsFresh(gate, changes[j]) && IsPinned(gate, head, changes[i]) ==> PrefixOf(changes[i]) < PrefixOf(changes[j]))
      {
        PairFits(gate, head, changes[i], changes[j]);
      }
      PinnedBelowFresh(gate, head, changes);
    }
  }

  lemma OthersFit(gate: Gate, head: Tree, baseFiles: seq<string>, changes: seq<Change>)
    ensures forall c <- changes :: !IsSql(c.path) ==> FitsAlone(gate, head, baseFiles, c)
    ensures forall i, j :: 0 <= i < j < |changes| && !(IsSql(changes[i].path) && IsSql(changes[j].path)) ==>
              FitTogether(gate, changes[i], changes[j])
  {
    hide IsMigrationName, BaseName, NumberText, IsSql;
  }

  /** The conditions on pairs, by position. */
  lemma PinnedBelowFresh(gate: Gate, head: Tree, changes: seq<Change>)
    ensures (forall c <- changes, p <- changes :: IsFresh(gate, c) && IsPinned(gate, head, p) ==> PrefixOf(p) < PrefixOf(c)) <==>
            (forall i, j :: 0 <= i < j < |changes| ==>
               && (IsFresh(gate, changes[i]) && IsPinned(gate, head, changes[j]) ==> PrefixOf(changes[j]) < PrefixOf(changes[i]))
               && (IsFresh(gate, changes[j]) && IsPinned(gate, head, changes[i]) ==> PrefixOf(changes[i]) < PrefixOf(changes[j])))
    ensures DistinctSomes(FreshPrefixes(gate, changes)) <==>
            (forall i, j :: 0 <= i < j < |changes| && IsFresh(gate, changes[i]) && IsFresh(gate, changes[j]) ==>
               PrefixOf(changes[i]) != PrefixOf(changes[j]))
  {
    hide IsMigrationName, BaseName, Prefix, IsSql;
    var prefixes := FreshPrefixes(gate, changes);
    if DistinctSomes(prefixes) {
      forall i, j | 0 <= i < j < |changes| && IsFresh(gate, changes[i]) && IsFresh(gate, changes[j])
        ensures PrefixOf(changes[i]) != PrefixOf(changes[j])
      {
        assert prefixes[i] != prefixes[j];
      }
    }
    if forall i, j :: 0 <= i < j < |changes| ==>
         && (IsFresh(gate, changes[i]) && IsPinned(gate, head, changes[j]) ==> PrefixOf(changes[j]) < PrefixOf(changes[i]))
         && (IsFresh(gate, changes[j]) && IsPinned(gate, head, changes[i]) ==> PrefixOf(changes[i]) < PrefixOf(changes[j])) {
      forall c, p | c in changes && p in changes && IsFresh(gate, c) && IsPinned(gate, head, p) ensures PrefixOf(p) < PrefixOf(c) {
        var i :| 0 <= i < |changes| && changes[i] == c;
        var j :| 0 <= j < |changes| && changes[j] == p;
      }
    }
  }

  // ---------------------------------------------------------------- what an accepted comparison keeps

  /** The changes are the differences between the two trees; which removed and added paths are paired
      as renames is left open. */
  ghost predicate IsDiff(base: Tree, head: Tree, changes: seq<Change>) {
    && (forall c <- changes ::
          match c
          case Added(p) => p !in base && p in head
          case Deleted(p) => p in base && p !in head
          case Modified(p) => p in base && p in head
          case Retyped(p) => p in base && p in head
          case Renamed(p, q) => p in base && p !in head && q !in base && q in head)
    && (forall p <- base :: (p in head && head[p] == base[p]) || exists c <- changes :: RemovesOrChanges(c, p))
    && (forall p <- head :: p in base || exists c <- changes :: Creates(c, p))
  }

  predicate RemovesOrChanges(c: Change, p: string) {
    match c
    case Added(_) => false
    case Renamed(q, _) => q == p
    case _ => c.path == p
  }

  predicate Creates(c: Change, p: string) {
    (c.Added? || c.Renamed?) && c.path == p
  }

  /** The comparison of base and head that the gate makes. */
  ghost predicate Compared(base: Tree, head: Tree, listing: seq<string>, baseFiles: seq<string>, changes: seq<Change>) {
    && IsDiff(base, head, changes)
    && (forall p <- head :: IsSql(p) && TopLevel(p) ==> p in listing)
    && (forall p <- base :: p in baseFiles)
  }

  /** This migration was renamed to a name that is not one of an SQL file. */
  predicate RenamesAway(changes: seq<Change>, p: string) {
    IsSql(p) && exists c <- changes :: c.Renamed? && c.source == p && !IsSql(c.path)
  }

  /** Every SQL file of the base is in the head, unchanged. */
  ghost predicate KeepsSql(base: Tree, head: Tree) {
    forall p <- base :: IsSql(p) ==> p in head && head[p] == base[p]
  }

  /** The documentation forbids renaming a migration, but the gate reads only the new name of a
      rename: an accepted comparison keeps a migration, with its content, exactly when it was not
      renamed away, and drops it otherwise. */
  lemma AcceptedKeepsUnlessRenamedAway(
    gate: Gate, base: Tree, head: Tree, listing: seq<string>, baseFiles: seq<string>, changes: seq<Change>, p: string)
    requires Compared(base, head, listing, baseFiles, changes) && Accepts(gate, head, listing, baseFiles, changes)
    requires p in base && IsSql(p)
    ensures if RenamesAway(changes, p) then p !in head else p in head && head[p] == base[p]
  {
    hide IsSql, IsMigrationName, BaseName;
    if !RenamesAway(changes, p) {
      assert forall c <- changes :: IsSql(c.path) ==> c.Added?;
      assert forall c <- changes :: RemovesOrChanges(c, p) ==> IsSql(c.path) && !c.Added?;
    }
  }

  /** So it keeps all migrations exactly when none was renamed away. */
  lemma AcceptedKeepsSqlIffNotRenamedAway(
    gate: Gate, base: Tree, head: Tree, listing: seq<string>, baseFiles: seq<string>, changes: seq<Change>)
    requires Compared(base, head, listing, baseFiles, changes) && Accepts(gate, head, listing, baseFiles, changes)
    ensures KeepsSql(base, head) <==> forall p <- base :: !RenamesAway(changes, p)
  {
    hide IsSql, RenamesAway, Compared, Accepts;
    forall p | p in base ensures RenamesAway(changes, p) ==> IsSql(p) {
      OnlySqlIsRenamedAway(changes, p);
    }
    forall p | p in base && IsSql(p) ensures if RenamesAway(changes, p) then p !in head else p in head && head[p] == base[p] {
      AcceptedKeepsUnlessRenamedAway(gate, base, head, listing, baseFiles, changes, p);
    }
  }

  lemma OnlySqlIsRenamedAway(changes: seq<Change>, p: string)
    ensures RenamesAway(changes, p) ==> IsSql(p)
  {
  }

  /** Any migration can be renamed to a new name that is not one of an SQL file: the gate accepts the
      comparison, and the migration is gone. */
  lemma RenamingAwayIsAccepted(gate: Gate, base: Tree, source: string, path: string, listing: seq<string>, baseFiles: seq<string>)
    requires source in base && IsSql(source) && path !in base && !IsSql(path)
    requires forall name <- listing :: IsMigrationName(name)
    requires forall p <- base :: p in baseFiles && (IsSql(p) && TopLevel(p) && p != source ==> p in listing)
    ensures var head := (base - {source})[path := base[source]];
            && Compared(base, head, listing, baseFiles, [Renamed(source, path)])
            && Accepts(gate, head, listing, baseFiles, [Renamed(source, path)])
            && !KeepsSql(base, head)
  {
    hide IsSql, IsMigrationName, BaseName, TopLevel;
    var head: Tree := (base - {source})[path := base[source]];
    var change := Renamed(source, path);
    assert change in [change] && RemovesOrChanges(change, source) && Creates(change, path);
    assert IsDiff(base, head, [change]);
    assert FreshPrefixes(gate, [change]) == [None];
    assert source in base && source !in head;
  }

  /** The names that are executed at startup: the SQL files at the top. */
  ghost function Executed(tree: Tree): set<string> {
    set p | p in tree && IsSql(p) && TopLevel(p)
  }

  /** What the gate looked at when it compared two trees. */
  datatype Comparison = Comparison(listing: seq<string>, baseFiles: seq<string>, changes: seq<Change>)

  ghost predicate Accepted(gate: Gate, base: Tree, head: Tree, c: Comparison) {
    Compared(base, head, c.listing, c.baseFiles, c.changes) && Accepts(gate, head, c.listing, c.baseFiles, c.changes)
  }

  lemma ExecutedStays(gate: Gate, base: Tree, head: Tree, c: Comparison, p: string)
    requires Accepted(gate, base, head, c) && p in Executed(base)
    ensures p in Executed(head) <==> !RenamesAway(c.changes, p)
    ensures p in Executed(head) ==> head[p] == base[p]
  {
    hide IsSql, TopLevel, RenamesAway;
    AcceptedKeepsUnlessRenamedAway(gate, base, head, c.listing, c.baseFiles, c.changes, p);
  }

  /** What an accepted comparison adds is pinned, with the pinned content, or sorts after everything
      that it keeps. */
  lemma StepAppends(gate: Gate, base: Tree, head: Tree, c: Comparison, p: string)
    requires Accepted(gate, base, head, c) && p in Executed(head) - Executed(base)
    ensures (p in gate.pinned && head[p] == gate.pinned[p]) || forall q <- Executed(base) * Executed(head) :: Less(q, p)
  {
    hide IsSql, IsMigrationName, BaseName, TopLevel, Less;
    var change :| change in c.changes && Creates(change, p);
    assert MayEnter(gate, head, change);
    TopLevelIsItsName(p);
    if p !in gate.pinned {
      assert IsFresh(gate, change);
      forall q | q in Executed(base) * Executed(head) ensures Less(q, p) {
        TopLevelIsItsName(q);
        assert q in head && q in c.listing && IsMigrationName(q) && q in c.baseFiles;
        assert Prefix(BaseName(q)) < PrefixOf(change);
        GreaterPrefixIsLater(q, p);
      }
    }
  }

  // ---------------------------------------------------------------- runs

  /** Consecutive trees, each accepted against the one before; any accepted comparison may occur. */
  ghost predicate AcceptedRun(gate: Gate, trees: seq<Tree>, comparisons: seq<Comparison>) {
    |trees| == |comparisons| + 1 && forall i :: 0 <= i < |comparisons| ==> Accepted(gate, trees[i], trees[i + 1], comparisons[i])
  }

  /** The files of the first tree that are executed in every tree of the run. */
  ghost function Survivors(trees: seq<Tree>): set<string>
    requires trees != []
  {
    set p | p in Executed(trees[0]) && forall tree <- trees :: p in Executed(tree)
  }

  lemma SurvivorsOfPrefix(trees: seq<Tree>, p: string)
    requires |trees| > 1
    ensures p in Survivors(trees) <==> p in Survivors(trees[..|trees| - 1]) && p in Executed(trees[|trees| - 1])
  {
    hide Executed;
    var before, last := trees[..|trees| - 1], trees[|trees| - 1];
    assert trees == before + [last];
    assert forall tree :: tree in trees <==> tree in before || tree == last;
  }

  /** A file of the first tree survives a run of accepted comparisons if and only if none of them
      renames it away. */
  lemma {:induction false} SurvivesIffNotRenamedAway(gate: Gate, trees: seq<Tree>, comparisons: seq<Comparison>, p: string)
    requires AcceptedRun(gate, trees, comparisons) && p in Executed(trees[0])
    ensures p in Survivors(trees) <==> forall c <- comparisons :: !RenamesAway(c.changes, p)
    decreases |trees|
  {
    hide Executed, Accepted, RenamesAway;
    if |trees| == 1 {
      assert trees == [trees[0]] && comparisons == [];
    } else {
      var n := |comparisons| - 1;
      assert comparisons == comparisons[..n] + [comparisons[n]];
      SurvivesIffNotRenamedAway(gate, trees[..n + 1], comparisons[..n], p);
      SurvivorsOfPrefix(trees, p);
      if p in Survivors(trees[..n + 1]) {
        assert trees[..n + 1][n] == trees[n] && trees[n] in trees[..n + 1];
        ExecutedStays(gate, trees[n], trees[n + 1], comparisons[n], p);
      }
    }
  }

  /** Survivors keep their content, and every other file executed at the end is pinned, with the pinned
      content, or sorts after all survivors. */
  ghost predicate Appends(gate: Gate, survivors: set<string>, first: Tree, last: Tree) {
    && survivors <= Executed(first) * Executed(last)
    && (forall p <- survivors :: last[p] == first[p])
    && forall p <- Executed(last) - survivors ::
         (p in gate.pinned && last[p] == gate.pinned[p]) || forall q <- survivors :: Less(q, p)
  }

  lemma AppendsOnceMore(gate: Gate, before: set<string>, survivors: set<string>, first: Tree, base: Tree, head: Tree, c: Comparison)
    requires Accepted(gate, base, head, c) && Appends(gate, before, first, base)
    requires survivors == before * Executed(head)
    ensures Appends(gate, survivors, first, head)
  {
    hide Accepted, IsSql, TopLevel, Less;
    forall p | p in Executed(base) * Executed(head) ensures head[p] == base[p] {
      ExecutedStays(gate, base, head, c, p);
    }
    forall p | p in Executed(head) - survivors
      ensures (p in gate.pinned && head[p] == gate.pinned[p]) || forall q <- survivors :: Less(q, p)
    {
      if p !in Executed(base) {
        StepAppends(gate, base, head, c, p);
      }
    }
  }

  /** Over any run of accepted comparisons. */
  lemma {:induction false} RunAppends(gate: Gate, trees: seq<Tree>, comparisons: seq<Comparison>)
    requires AcceptedRun(gate, trees, comparisons)
    ensures Appends(gate, Survivors(trees), trees[0], trees[|trees| - 1])
    decreases |trees|
  {
    if |trees| == 1 {
      hide IsSql, TopLevel;
      assert trees == [trees[0]];
      assert Survivors(trees) == Executed(trees[0]);
    } else {
      hide Accepted, Appends, Survivors, Executed;
      var n := |comparisons| - 1;
      RunAppends(gate, trees[..n + 1], comparisons[..n]);
      forall p ensures p in Survivors(trees) <==> p in Survivors(trees[..n + 1]) && p in Executed(trees[n + 1]) {
        SurvivorsOfPrefix(trees, p);
      }
      assert Survivors(trees) == Survivors(trees[..n + 1]) * Executed(trees[n + 1]);
      AppendsOnceMore(gate, Survivors(trees[..n + 1]), Survivors(trees), trees[0], trees[n], trees[n + 1], comparisons[n]);
    }
  }

  /** `names` lists the set in the order of execution. */
  ghost predicate Lists(names: seq<string>, all: set<string>) {
    && (forall p :: p in names <==> p in all)
    && forall i, j :: 0 <= i < j < |names| ==> Less(names[i], names[j])
  }

  lemma {:induction false} LaterNamesExtendList(names: seq<string>, more: seq<string>, all: set<string>, extended: set<string>)
    requires Lists(names, all) && Lists(more, extended) && all <= extended
    requires forall p <- extended - all, q <- all :: Less(q, p)
    ensures names <= more
  {
    if names == [] {
      return;
    }
    hide Less;
    var first := names[0];
    assert first in all && first in more;
    var k :| 0 <= k < |more| && more[k] == first;
    LessTrichotomy(more[0], first);
    assert more[0] in more && k == 0;
    TailLists(names, all);
    TailLists(more, extended);
    LaterNamesExtendList(names[1..], more[1..], all - {first}, extended - {first});
    assert names == [first] + names[1..] && more == [first] + more[1..];
  }

  lemma TailLists(names: seq<string>, all: set<string>)
    requires Lists(names, all) && names != []
    ensures Lists(names[1..], all - {names[0]})
  {
    hide Less;
    forall p ensures p in names[1..] <==> p in all - {names[0]} {
      if p in names[1..] {
        var i :| 1 <= i < |names| && names[i] == p;
        LessTrichotomy(names[0], names[i]);
      }
    }
  }

  /** Over any run of accepted comparisons the sorted list of the survivors is a prefix of the
      execution list at the end, once the pinned files that entered on the way are left out. */
  lemma RunExtendsExecutionList(
    gate: Gate, trees: seq<Tree>, comparisons: seq<Comparison>, names: seq<string>, more: seq<string>)
    requires AcceptedRun(gate, trees, comparisons) && Lists(names, Survivors(trees))
    requires Lists(more, set p | p in Executed(trees[|trees| - 1]) && (p in Survivors(trees) || p !in gate.pinned))
    ensures names <= more
  {
    hide Executed, Survivors, Less, Accepted;
    RunAppends(gate, trees, comparisons);
    LaterNamesExtendList(names, more, Survivors(trees),
                         set p | p in Executed(trees[|trees| - 1]) && (p in Survivors(trees) || p !in gate.pinned));
  }

  /** A run that renames nothing away and adds no pinned file only extends the execution list. */
  lemma CleanRunExtendsExecutionList(
    gate: Gate, trees: seq<Tree>, comparisons: seq<Comparison>, names: seq<string>, more: seq<string>)
    requires AcceptedRun(gate, trees, comparisons)
    requires forall c <- comparisons, p <- Executed(trees[0]) :: !RenamesAway(c.changes, p)
    requires forall p <- Executed(trees[|trees| - 1]) - Executed(trees[0]) :: p !in gate.pinned
    requires Lists(names, Executed(trees[0])) && Lists(more, Executed(trees[|trees| - 1]))
    ensures names <= more
  {
    hide Executed, Survivors, Less, Accepted, RenamesAway;
    forall p ensures p in Survivors(trees) <==> p in Executed(trees[0]) {
      if p in Executed(trees[0]) {
        SurvivesIffNotRenamedAway(gate, trees, comparisons, p);
      }
      SurvivorsWereThere(trees, p);
    }
    assert Survivors(trees) == Executed(trees[0]);
    RunAppends(gate, trees, comparisons);
    LaterNamesExtendList(names, more, Executed(trees[0]), Executed(trees[|trees| - 1]));
  }

  lemma SurvivorsWereThere(trees: seq<Tree>, p: string)
    requires trees != []
    ensures p in Survivors(trees) ==> p in Executed(trees[0])
  {
  }
}
