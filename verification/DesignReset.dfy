/** Migration 0005: retired flag definitions are archived under keys that record their activity
    and primary key, and reversing reads them back. */
module DesignReset {
  import opened Prelude
  import opened Decimals

  datatype Definition = Definition(key: string, description: string, kind: string, defaultValue: string,
                                   active: bool, sticky: bool)

  type Definitions = map<nat, Definition>

  const COUNT := 5

  /** `CANONICAL_FLAGS`, in order, with their descriptions. */
  function Flags(): (r: seq<(string, string)>)
    ensures |r| == COUNT
  {
    [("site_itmocraft_page_version", "Switches the canonical / ITMOcraft page."),
     ("site_joutak_page_version", "Switches the /joutak product page."),
     ("site_minigames_page_version", "Switches the /minigames product page."),
     ("site_header_version", "Switches the shared site header."),
     ("site_footer_version", "Switches the shared site footer.")]
  }

  const OTHER_SITE: set<string> := {
    "site_homepage_version", "site_homepage_page_version", "site_header_v2", "site_footer_v2"}
  const OTHER_JOUTAK: set<string> := {
    "joutak_projects_section", "joutak_hero_section", "joutak_events_section", "joutak_faq_section",
    "joutak_gallery_section", "joutak_new_hero_section", "joutak_new_gallery_section"}
  const OTHER_MINIGAMES: set<string> := {
    "minigames_new_hero_section", "minigames_new_projects_section", "minigames_new_gallery_section",
    "minigames_new_events_section"}
  const OTHER_ITMOCRAFT: set<string> := {
    "itmocraft_new_header", "itmocraft_new_hero_section", "itmocraft_new_projects_section",
    "itmocraft_new_gallery_section", "itmocraft_new_events_section", "itmocraft_new_faq_section"}

  function CanonicalKeys(): set<string> { set c | c in Flags() :: c.0 }

  predicate Retired(key: string) {
    key in CanonicalKeys() || key in OTHER_SITE || key in OTHER_JOUTAK || key in OTHER_MINIGAMES || key in OTHER_ITMOCRAFT
  }

  // ---------------------------------------------------------------- archive keys

  const ARCHIVE := "p129"
  const ROLLBACK := "rollback_p129"

  /** The part of an archive key before its first double underscore. */
  function Stem(prefix: string, active: bool, pk: nat): string {
    prefix + (if active then "_a1_" else "_a0_") + Digits(pk)
  }

  function ArchiveKey(prefix: string, pk: nat, d: Definition): string {
    Stem(prefix, d.active, pk) + "__" + d.key
  }

  function ArchivedRow(prefix: string, pk: nat, d: Definition): Definition {
    d.(key := ArchiveKey(prefix, pk, d), active := false)
  }

  /** `key.split("__", 1)`; None when there is no double underscore to split at. */
  function SplitFirst(key: string): (r: Option<(string, string)>)
    ensures r.Some? ==> |r.value.0| + 2 + |r.value.1| == |key|
  {
    if |key| < 2 then None
    else if key[0] == '_' && key[1] == '_' then Some(("", key[2..]))
    else
      var rest := SplitFirst(key[1..]);
      if rest.None? then None else Some(([key[0]] + rest.value.0, rest.value.1))
  }

  predicate NoDouble(s: string) {
    && (forall i | 0 <= i < |s| - 1 :: !(s[i] == '_' && s[i + 1] == '_'))
    && (s != "" ==> s[|s| - 1] != '_')
  }

  lemma SplitStep(head: char, rest: string)
    requires rest != "" && !(head == '_' && rest[0] == '_') && SplitFirst(rest).Some?
    ensures SplitFirst([head] + rest) == Some(([head] + SplitFirst(rest).value.0, SplitFirst(rest).value.1))
  {
    assert ([head] + rest)[1..] == rest;
  }

  lemma NoDoubleTail(s: string)
    requires s != "" && NoDouble(s)
    ensures NoDouble(s[1..]) && (|s| > 1 ==> !(s[0] == '_' && s[1] == '_'))
  {
    var t := s[1..];
    forall i | 0 <= i < |t| - 1 ensures !(t[i] == '_' && t[i + 1] == '_') {
      assert t[i] == s[i + 1] && t[i + 1] == s[i + 2];
    }
  }

  lemma Regrouped(meta: string, key: string)
    requires meta != ""
    ensures meta + "__" + key == [meta[0]] + (meta[1..] + "__" + key)
    ensures [meta[0]] + meta[1..] == meta
    ensures meta[1..] + "__" + key != "" && (meta[1..] + "__" + key)[0] == if |meta| > 1 then meta[1] else '_'
  {
  }

  lemma LastIsNoUnderscore(s: string)
    requires s != "" && NoDouble(s)
    ensures s[|s| - 1] != '_'
  {
  }

  /** A text with no double underscore of its own, and none at its end, is what a split gives back. */
  lemma {:induction false} SplitJoined(meta: string, key: string)
    requires NoDouble(meta)
    ensures SplitFirst(meta + "__" + key) == Some((meta, key))
    decreases |meta|
  {
    if meta == "" {
      assert (meta + "__" + key)[2..] == key;
    } else {
      hide SplitFirst, NoDouble;
      NoDoubleTail(meta);
      LastIsNoUnderscore(meta);
      Regrouped(meta, key);
      SplitJoined(meta[1..], key);
      SplitStep(meta[0], meta[1..] + "__" + key);
    }
  }

  lemma JoinHasNoDouble(head: string, d: string)
    requires |head| > 1 && NoDouble(head[..|head| - 1]) && head[|head| - 1] == '_' && head[|head| - 2] != '_'
    requires d != "" && forall i | 0 <= i < |d| :: d[i] != '_'
    ensures NoDouble(head + d)
  {
    var s, h := head + d, head[..|head| - 1];
    forall i | 0 <= i < |s| - 1 ensures !(s[i] == '_' && s[i + 1] == '_') {
      if i < |h| - 1 { assert s[i] == h[i] && s[i + 1] == h[i + 1]; }
      else if i == |h| - 1 { assert s[i] == head[|head| - 2]; }
      else { assert s[i + 1] == d[i + 1 - |head|]; }
    }
    assert s[|s| - 1] == d[|d| - 1];
  }

  lemma StemHasNoDouble(prefix: string, active: bool, pk: nat)
    requires prefix in {ARCHIVE, ROLLBACK}
    ensures NoDouble(Stem(prefix, active, pk))
  {
    DigitsAreDigits(pk);
    var d := Digits(pk);
    forall i | 0 <= i < |d| ensures d[i] != '_' { assert d[i] in d; }
    HeadHasNoDouble(prefix, active);
    hide NoDouble, Digits;
    JoinHasNoDouble(prefix + (if active then "_a1_" else "_a0_"), d);
  }

  lemma HeadHasNoDouble(prefix: string, active: bool)
    requires prefix in {ARCHIVE, ROLLBACK}
    ensures var head := prefix + (if active then "_a1_" else "_a0_");
            NoDouble(head[..|head| - 1]) && head[|head| - 1] == '_' && head[|head| - 2] != '_'
  {
    var tail := if active then "_a1_" else "_a0_";
    var h := (prefix + tail)[..|prefix| + 3];
    assert forall i | 0 <= i < |prefix| :: h[i] == prefix[i];
    assert h[|prefix|] == '_' && h[|prefix| + 1] == 'a' && h[|prefix| + 2] == tail[2];
  }

  /** An archive key splits into its stem and the key it archives. */
  lemma ArchiveKeyReadsBack(prefix: string, pk: nat, d: Definition)
    requires prefix in {ARCHIVE, ROLLBACK}
    ensures SplitFirst(ArchiveKey(prefix, pk, d)) == Some((Stem(prefix, d.active, pk), d.key))
  {
    StemHasNoDouble(prefix, d.active, pk);
    SplitJoined(Stem(prefix, d.active, pk), d.key);
  }

  /** `metadata.startswith("p129_a1_")`. */
  predicate ReadsActive(meta: string) { "p129_a1_" <= meta }

  lemma StemTellsActive(active: bool, pk: nat)
    ensures ReadsActive(Stem(ARCHIVE, active, pk)) <==> active
    ensures "p129_a" <= Stem(ARCHIVE, active, pk)
  {
    assert Stem(ARCHIVE, active, pk)[6] == if active then '1' else '0';
    assert "p129_a1_"[6] == '1';
  }

  // ---------------------------------------------------------------- whose key is whose

  /** Archive keys of one prefix name their row: two rows never share one. */
  lemma StemsNameRows(prefix: string, a: bool, p: nat, b: bool, q: nat, key: string)
    requires prefix in {ARCHIVE, ROLLBACK}
    requires Stem(prefix, a, p) + "__" <= key && Stem(prefix, b, q) + "__" <= key
    ensures p == q
  {
    var x, y := Stem(prefix, a, p), Stem(prefix, b, q);
    StemHasNoDouble(prefix, a, p);
    StemHasNoDouble(prefix, b, q);
    var k, h := key[|x| + 2..], key[|y| + 2..];
    assert key == x + "__" + k && key == y + "__" + h;
    SplitJoined(x, k);
    SplitJoined(y, h);
    assert x == y;
    var n := |prefix| + 4;
    assert x[n..] == Digits(p) && y[n..] == Digits(q);
    DigitsReadBack(p);
    DigitsReadBack(q);
  }

  predicate Unique(defs: Definitions) {
    forall p, q | p in defs && q in defs && p != q :: defs[p].key != defs[q].key
  }

  predicate Free(defs: Definitions, pk: nat, key: string) {
    forall q | q in defs && q != pk :: defs[q].key != key
  }

  // ---------------------------------------------------------------- what the migration does

  /** The rows of `done` renamed under the prefix. */
  function Renamed(defs: Definitions, prefix: string, done: set<nat>): Definitions {
    map pk | pk in defs :: if pk in done then ArchivedRow(prefix, pk, defs[pk]) else defs[pk]
  }

  /** No other row has taken an archive key that a row of `todo` is about to take. */
  predicate Clear(defs: Definitions, prefix: string, todo: set<nat>) {
    forall pk | pk in todo && pk in defs :: Free(defs, pk, ArchivedRow(prefix, pk, defs[pk]).key)
  }

  /** Then each row of `todo` can be renamed, whichever were renamed before. */
  lemma OwnKeyIsFree(defs: Definitions, prefix: string, todo: set<nat>, done: set<nat>, pk: nat)
    requires prefix in {ARCHIVE, ROLLBACK} && pk in todo && pk in defs
    ensures Clear(defs, prefix, todo) ==> Free(Renamed(defs, prefix, done), pk, ArchivedRow(prefix, pk, defs[pk]).key)
  {
    hide Stem;
    var r := Renamed(defs, prefix, done);
    forall q | q in r && q != pk && q in done ensures r[q].key != ArchivedRow(prefix, pk, defs[pk]).key {
      ArchiveKeysDiffer(prefix, pk, defs[pk], q, defs[q]);
    }
  }

  lemma ArchiveKeysDiffer(prefix: string, p: nat, d: Definition, q: nat, e: Definition)
    requires prefix in {ARCHIVE, ROLLBACK} && p != q
    ensures ArchiveKey(prefix, p, d) != ArchiveKey(prefix, q, e)
  {
    hide Stem;
    if ArchiveKey(prefix, p, d) == ArchiveKey(prefix, q, e) {
      var key := ArchiveKey(prefix, p, d);
      assert Stem(prefix, d.active, p) + "__" <= key && Stem(prefix, e.active, q) + "__" <= key;
      StemsNameRows(prefix, d.active, p, e.active, q, key);
    }
  }

  function ToArchive(defs: Definitions): set<nat> {
    set pk | pk in defs && Retired(defs[pk].key)
  }

  function Canonical(i: nat): Definition
    requires i < COUNT
  {
    Definition(Flags()[i].0, Flags()[i].1, "variant", "legacy", true, false)
  }

  /** The first n canonical definitions created, from primary key `next` on. */
  function WithCanonical(defs: Definitions, next: nat, n: nat): Definitions
    requires n <= COUNT
  {
    if n == 0 then defs else WithCanonical(defs, next, n - 1)[next + n - 1 := Canonical(n - 1)]
  }

  function Forward(defs: Definitions, next: nat): Definitions {
    WithCanonical(Renamed(defs, ARCHIVE, ToArchive(defs)), next, COUNT)
  }

  function Current(defs: Definitions): set<nat> {
    set pk | pk in defs && defs[pk].key in CanonicalKeys()
  }

  function Pending(defs: Definitions): set<nat> {
    set pk | pk in defs && "p129_a" <= defs[pk].key
  }

  predicate Readable(d: Definition) { SplitFirst(d.key).Some? }

  function RestoredRow(d: Definition): Definition
    requires Readable(d)
  {
    var parts := SplitFirst(d.key).value;
    d.(key := parts.1, active := ReadsActive(parts.0))
  }

  function Restored(defs: Definitions, done: set<nat>): Definitions
    requires forall pk | pk in done && pk in defs :: Readable(defs[pk])
  {
    map pk | pk in defs :: if pk in done then RestoredRow(defs[pk]) else defs[pk]
  }

  /** None when an archive key cannot be split. */
  function Reverse(defs: Definitions): Option<Definitions> {
    var rolled := Renamed(defs, ROLLBACK, Current(defs));
    if exists pk | pk in Pending(rolled) :: !Readable(rolled[pk]) then None
    else Some(Restored(rolled, Pending(rolled)))
  }

  /** Reversing meets no key collision and no unreadable key. */
  predicate Reversible(defs: Definitions) {
    && Clear(defs, ROLLBACK, Current(defs)) && Reverse(defs).Some? && Unique(Reverse(defs).value)
    && forall pk | pk in Reverse(defs).value :: !("p129_a" <= Reverse(defs).value[pk].key)
  }

  // ---------------------------------------------------------------- the migration in place

  class FlagTable {
    var defs: Definitions
    var next: nat

    constructor (defs: Definitions, next: nat)
      ensures this.defs == defs && this.next == next
    {
      this.defs := defs;
      this.next := next;
    }

    /** Save a row under the unique constraint on keys. */
    method Save(pk: nat, d: Definition) returns (ok: bool)
      modifies this`defs
      ensures ok == Free(old(defs), pk, d.key)
      ensures defs == if ok then old(defs)[pk := d] else old(defs)
    {
      ok := forall q | q in defs && q != pk :: defs[q].key != d.key;
      if ok { defs := defs[pk := d]; }
    }

    /** Rename the rows of `todo`, one save each. */
    method RenameAll(prefix: string, todo: set<nat>) returns (ok: bool)
      requires todo <= defs.Keys && prefix in {ARCHIVE, ROLLBACK}
      modifies this`defs
      ensures ok ==> defs == Renamed(old(defs), prefix, todo)
      ensures Clear(old(defs), prefix, todo) ==> ok
      ensures Unique(old(defs)) ==> Unique(defs)
    {
      hide Free, Renamed, ArchivedRow, Unique;
      var rest, done := todo, {};
      NoneRenamed(defs, prefix);
      while rest != {}
        invariant rest + done == todo && rest !! done
        invariant defs == Renamed(old(defs), prefix, done)
        invariant Unique(old(defs)) ==> Unique(defs)
        decreases |rest|
      {
        var pk := Least(rest);
        var before := defs;
        RenamedStep(old(defs), prefix, done, pk);
        OwnKeyIsFree(old(defs), prefix, todo, done, pk);
        ok := Save(pk, ArchivedRow(prefix, pk, before[pk]));
        if !ok { return; }
        if Unique(before) { SaveKeepsUnique(before, pk, ArchivedRow(prefix, pk, before[pk])); }
        rest, done := rest - {pk}, done + {pk};
      }
      assert done == todo;
      ok := true;
    }

    method CreateCanonical() returns (ok: bool)
      modifies this
      ensures ok ==> defs == WithCanonical(old(defs), old(next), COUNT) && next == old(next) + COUNT
      ensures (forall pk | pk in old(defs) :: old(defs)[pk].key !in CanonicalKeys()) ==> ok
    {
      var i := 0;
      while i < COUNT
        invariant 0 <= i <= COUNT && next == old(next) + i
        invariant defs == WithCanonical(old(defs), old(next), i)
      {
        NextCanonicalIsFree(old(defs), old(next), i);
        ok := Save(next, Canonical(i));
        if !ok { return; }
        next := next + 1;
        i := i + 1;
      }
      ok := true;
    }

    /** `forward`: archive the retired definitions, then create the canonical ones. A failed save
        rolls the migration back. */
    method Migrate() returns (ok: bool)
      modifies this
      ensures if ok then defs == Forward(old(defs), old(next)) && next == old(next) + COUNT
              else defs == old(defs) && next == old(next)
      ensures Clear(old(defs), ARCHIVE, ToArchive(old(defs))) ==> ok
      ensures Unique(old(defs)) && ok ==> Clear(old(defs), ARCHIVE, ToArchive(old(defs)))
    {
      var before, first := defs, next;
      ok := RenameAll(ARCHIVE, ToArchive(defs));
      if ok {
        RenamedWereClear(before);
        ArchivedAreNotCanonical(before);
        ok := CreateCanonical();
      }
      if !ok { defs, next := before, first; }
    }

    /** `reverse`: move the canonical definitions aside, then read the archived ones back. */
    method Unmigrate() returns (ok: bool)
      modifies this`defs
      ensures if ok then Reverse(old(defs)) == Some(defs) else defs == old(defs)
      ensures Reversible(old(defs)) ==> ok
    {
      var before := defs;
      ok := RenameAll(ROLLBACK, Current(defs));
      if ok { ok := RestoreAll(before); }
      if !ok { defs := before; }
    }

    /** Read every pending archive key back, one save each. */
    method RestoreAll(ghost before: Definitions) returns (ok: bool)
      requires defs == Renamed(before, ROLLBACK, Current(before))
      modifies this`defs
      ensures ok ==> Reverse(before) == Some(defs)
      ensures Reversible(before) ==> ok
    {
      hide Renamed, Current, RestoredRow, Readable, Reversible, Free, Reverse, Restored, Pending;
      var rolled := defs;
      var todo := Pending(rolled);
      var rest, done := todo, {};
      RestoredEnds(before, rolled);
      while rest != {}
        invariant rest + done == todo && rest !! done
        invariant forall pk | pk in done :: Readable(rolled[pk])
        invariant defs == Restored(rolled, done)
        decreases |rest|
      {
        var pk := Least(rest);
        OriginalIsFree(before, rolled, done, pk);
        if !Readable(defs[pk]) { return false; }
        RestoredStep(rolled, done, pk);
        ok := Save(pk, RestoredRow(defs[pk]));
        if !ok { return; }
        rest, done := rest - {pk}, done + {pk};
      }
      assert done == todo;
      ok := true;
    }
  }

  lemma NoneRenamed(defs: Definitions, prefix: string)
    ensures Renamed(defs, prefix, {}) == defs
  {
  }

  lemma RenamedStep(defs: Definitions, prefix: string, done: set<nat>, pk: nat)
    requires pk in defs && pk !in done
    ensures var r := Renamed(defs, prefix, done);
            && pk in r && r[pk] == defs[pk]
            && r[pk := ArchivedRow(prefix, pk, defs[pk])] == Renamed(defs, prefix, done + {pk})
  {
  }

  lemma RestoredEnds(before: Definitions, rolled: Definitions)
    requires rolled == Renamed(before, ROLLBACK, Current(before))
    ensures Pending(rolled) <= rolled.Keys && Restored(rolled, {}) == rolled
    ensures (forall pk | pk in Pending(rolled) :: Readable(rolled[pk])) ==>
              Reverse(before) == Some(Restored(rolled, Pending(rolled)))
  {
    hide Readable, RestoredRow;
  }

  lemma RestoredStep(defs: Definitions, done: set<nat>, pk: nat)
    requires pk in defs && pk !in done && Readable(defs[pk]) && forall q | q in done && q in defs :: Readable(defs[q])
    ensures Restored(defs, done)[pk := RestoredRow(defs[pk])] == Restored(defs, done + {pk})
  {
  }

  lemma SaveKeepsUnique(defs: Definitions, pk: nat, d: Definition)
    requires Unique(defs) && Free(defs, pk, d.key)
    ensures Unique(defs[pk := d])
  {
  }

  lemma FlagLetters(i: nat)
    requires i < COUNT
    ensures |Flags()[i].0| > 5 && Flags()[i].0[0] == 's' && Flags()[i].0[5] == "ijmhf"[i]
  {
  }

  lemma CanonicalKeysAreOrdinary()
    ensures forall i | 0 <= i < COUNT :: Flags()[i].0 in CanonicalKeys()
    ensures forall k | k in CanonicalKeys() :: !("p129_a" <= k) && !("rollback_p129_a" <= k)
    ensures forall i, j | 0 <= i < j < COUNT :: Flags()[i].0 != Flags()[j].0
  {
    hide Flags;
    assert forall i | 0 <= i < COUNT :: Flags()[i] in Flags();
    forall k | k in CanonicalKeys() ensures k != "" && k[0] == 's' {
      var i :| 0 <= i < COUNT && Flags()[i].0 == k;
      FlagLetters(i);
    }
    assert "p129_a"[0] == 'p' && "rollback_p129_a"[0] == 'r';
    forall i, j | 0 <= i < j < COUNT ensures Flags()[i].0 != Flags()[j].0 {
      FlagLetters(i);
      FlagLetters(j);
      assert "ijmhf"[i] != "ijmhf"[j];
    }
  }

  lemma {:induction false} CanonicalRows(defs: Definitions, next: nat, n: nat)
    requires n <= COUNT
    ensures var w := WithCanonical(defs, next, n);
            && (forall pk :: pk in w <==> pk in defs || next <= pk < next + n)
            && (forall pk | pk in w :: w[pk] == if next <= pk < next + n then Canonical(pk - next) else defs[pk])
  {
    hide Flags;
    if n > 0 { CanonicalRows(defs, next, n - 1); }
  }

  lemma NextCanonicalIsFree(defs: Definitions, next: nat, i: nat)
    requires i < COUNT
    ensures (forall pk | pk in defs :: defs[pk].key !in CanonicalKeys()) ==>
              Free(WithCanonical(defs, next, i), next + i, Flags()[i].0)
  {
    hide WithCanonical, Flags, CanonicalKeys;
    CanonicalRows(defs, next, i);
    CanonicalKeysAreOrdinary();
    var w := WithCanonical(defs, next, i);
    forall q | q in w && q != next + i && (forall pk | pk in defs :: defs[pk].key !in CanonicalKeys())
      ensures w[q].key != Flags()[i].0
    {
      if next <= q < next + i { assert w[q] == Canonical(q - next); } else { assert w[q] == defs[q]; }
    }
  }

  lemma ArchivedAreNotCanonical(defs: Definitions)
    ensures var a := Renamed(defs, ARCHIVE, ToArchive(defs));
            forall pk | pk in a :: a[pk].key !in CanonicalKeys()
  {
    hide Digits;
    CanonicalKeysAreOrdinary();
    forall pk | pk in ToArchive(defs) ensures ArchiveKey(ARCHIVE, pk, defs[pk]) !in CanonicalKeys() {
      ArchivePrefix(pk, defs[pk]);
    }
  }

  lemma ArchivePrefix(pk: nat, d: Definition)
    ensures "p129_a" <= ArchiveKey(ARCHIVE, pk, d)
    ensures "rollback_p129_a" <= ArchiveKey(ROLLBACK, pk, d) && !("p129_a" <= ArchiveKey(ROLLBACK, pk, d))
  {
    StemTellsActive(d.active, pk);
    assert Stem(ROLLBACK, d.active, pk)[..15] == "rollback_p129_a";
    assert ArchiveKey(ROLLBACK, pk, d)[0] == 'r' && "p129_a"[0] == 'p';
  }

  lemma OriginalIsFree(before: Definitions, rolled: Definitions, done: set<nat>, pk: nat)
    requires rolled == Renamed(before, ROLLBACK, Current(before))
    requires done <= Pending(rolled) && pk in Pending(rolled) - done
    requires forall q | q in done :: Readable(rolled[q])
    ensures pk in Restored(rolled, done) && Restored(rolled, done)[pk] == rolled[pk]
    ensures Reversible(before) ==> Readable(rolled[pk]) && Free(Restored(rolled, done), pk, RestoredRow(rolled[pk]).key)
  {
    hide RestoredRow, Renamed, Current, Clear, CanonicalKeys, Readable;
    if Reversible(before) {
      var final := Reverse(before).value;
      assert pk in final && final[pk] == RestoredRow(rolled[pk]);
      var now := Restored(rolled, done);
      forall q | q in now && q != pk ensures now[q].key != final[pk].key {
        if q in Pending(rolled) - done { assert now[q] == rolled[q]; } else { assert now[q] == final[q]; }
      }
    }
  }

  // ---------------------------------------------------------------- main results

  /** Forward archives exactly the retired rows and adds the canonical ones. */
  lemma ForwardRows(defs: Definitions, next: nat)
    requires forall pk | pk in defs :: pk < next
    ensures var f := Forward(defs, next);
            && (forall pk :: pk in f <==> pk in defs || next <= pk < next + COUNT)
            && (forall pk | pk in defs ::
                  f[pk] == if Retired(defs[pk].key) then ArchivedRow(ARCHIVE, pk, defs[pk]) else defs[pk])
            && (forall pk | pk in f && pk !in defs :: next <= pk < next + COUNT && f[pk] == Canonical(pk - next))
  {
    hide WithCanonical, ArchivedRow, Retired;
    CanonicalRows(Renamed(defs, ARCHIVE, ToArchive(defs)), next, COUNT);
  }

  /** The key a retired definition is archived under: whether it was active, its primary key, its own key. */
  function ArchivedKeyOf(pk: nat, d: Definition): string {
    "p129_a" + (if d.active then "1" else "0") + "_" + Digits(pk) + "__" + d.key
  }

  /** After the migration: each retired definition is inactive under its archive key and otherwise as it was, any
      other is untouched, and each of the five flags has one new definition, an active variant that is off. */
  lemma ForwardLeaves(defs: Definitions, next: nat)
    requires forall pk | pk in defs :: pk < next
    ensures var f := Forward(defs, next);
            && (forall pk | pk in defs && !Retired(defs[pk].key) :: pk in f && f[pk] == defs[pk])
            && (forall pk | pk in defs && Retired(defs[pk].key) ::
                  pk in f && f[pk] == defs[pk].(key := ArchivedKeyOf(pk, defs[pk]), active := false))
            && (forall i: nat | i < 5 ::
                  next + i in f && f[next + i] == Definition(Flags()[i].0, Flags()[i].1, "variant", "legacy", true, false))
  {
    ForwardRows(defs, next);
    hide Forward, Flags, Retired, Digits, CanonicalKeys;
    forall pk | pk in defs ensures ArchiveKey(ARCHIVE, pk, defs[pk]) == ArchivedKeyOf(pk, defs[pk]) { }
  }

  lemma ArchivedRowReadsBack(pk: nat, d: Definition)
    ensures Readable(ArchivedRow(ARCHIVE, pk, d)) && RestoredRow(ArchivedRow(ARCHIVE, pk, d)) == d
  {
    hide SplitFirst;
    ArchiveKeyReadsBack(ARCHIVE, pk, d);
    StemTellsActive(d.active, pk);
  }

  lemma ForwardCurrent(defs: Definitions, next: nat)
    requires forall pk | pk in defs :: pk < next
    ensures forall pk | pk in Forward(defs, next) :: pk in Current(Forward(defs, next)) <==> pk !in defs
  {
    hide Forward, Stem, Flags, ArchiveKey, CanonicalKeys;
    var f := Forward(defs, next);
    ForwardRows(defs, next);
    CanonicalKeysAreOrdinary();
    forall pk | pk in f ensures f[pk].key in CanonicalKeys() <==> pk !in defs {
      if pk in defs { ArchivePrefix(pk, defs[pk]); } else { assert f[pk] == Canonical(pk - next); }
    }
  }

  /** No existing key starts like an archive key. */
  predicate NoPending(defs: Definitions) {
    forall pk | pk in defs :: !("p129_a" <= defs[pk].key)
  }

  /** The key under which reversing moves the i-th canonical row aside when it is row pk. */
  function RollbackKey(pk: nat, i: nat): string
    requires i < COUNT
  {
    ArchiveKey(ROLLBACK, pk, Canonical(i))
  }

  predicate Takes(defs: Definitions, key: string) {
    exists pk :: pk in defs && defs[pk].key == key
  }

  /** The rollback key of the m-th new row when cycles create rows from `next` on. */
  function NthRollbackKey(next: nat, m: nat): string {
    RollbackKey(next + m, m % COUNT)
  }

  /** No existing key is one of the first `count` of those. */
  predicate RollbackFree(defs: Definitions, next: nat, count: nat) {
    forall m: nat | m < count :: !Takes(defs, NthRollbackKey(next, m))
  }

  lemma OtherFirstLetters(key: string)
    ensures key in OTHER_SITE ==> key != "" && key[0] == 's'
    ensures key in OTHER_JOUTAK ==> key != "" && key[0] == 'j'
    ensures key in OTHER_MINIGAMES ==> key != "" && key[0] == 'm'
    ensures key in OTHER_ITMOCRAFT ==> key != "" && key[0] == 'i'
  {
  }

  lemma RetiredAreOrdinary(key: string)
    ensures Retired(key) ==> !("p129_a" <= key) && !("rollback_p129_a" <= key)
  {
    CanonicalKeysAreOrdinary();
    OtherFirstLetters(key);
    hide CanonicalKeys;
    assert "p129_a"[0] == 'p' && "rollback_p129_a"[0] == 'r';
  }

  lemma RenamedWereClear(defs: Definitions)
    ensures Unique(Renamed(defs, ARCHIVE, ToArchive(defs))) ==> Clear(defs, ARCHIVE, ToArchive(defs))
  {
    hide Retired, ArchiveKey;
    var todo := ToArchive(defs);
    var r := Renamed(defs, ARCHIVE, todo);
    forall pk, q | pk in todo && q in defs && q != pk && Unique(r)
      ensures defs[q].key != ArchiveKey(ARCHIVE, pk, defs[pk])
    {
      ArchivePrefix(pk, defs[pk]);
      if q in todo { RetiredAreOrdinary(defs[q].key); } else { assert r[q].key != r[pk].key; }
    }
  }

  lemma NoneToArchiveClash(defs: Definitions)
    requires NoPending(defs)
    ensures Clear(defs, ARCHIVE, ToArchive(defs))
  {
    hide Retired, ArchiveKey;
    forall pk | pk in ToArchive(defs) ensures "p129_a" <= ArchiveKey(ARCHIVE, pk, defs[pk]) {
      ArchivePrefix(pk, defs[pk]);
    }
  }

  /** Moving the new rows aside is possible exactly when the five keys for that are not taken. */
  lemma RollbackClearExactly(defs: Definitions, next: nat)
    requires forall pk | pk in defs :: pk < next
    ensures Clear(Forward(defs, next), ROLLBACK, Current(Forward(defs, next))) <==> RollbackFree(defs, next, COUNT)
  {
    hide Forward, Current, Retired, Canonical, ArchiveKey, Free, Takes, RollbackKey;
    var f := Forward(defs, next);
    NewRows(defs, next);
    forall m: nat | m < COUNT
      ensures next + m in Current(f) && next + m in f
      ensures Free(f, next + m, ArchivedRow(ROLLBACK, next + m, f[next + m]).key) <==> !Takes(defs, NthRollbackKey(next, m))
    {
      RollbackTaken(defs, next, f, m);
      ArchivedKey(ROLLBACK, next + m, f[next + m]);
    }
    if RollbackFree(defs, next, COUNT) {
      forall pk | pk in Current(f) ensures Free(f, pk, ArchivedRow(ROLLBACK, pk, f[pk]).key) {
        assert !Takes(defs, NthRollbackKey(next, pk - next));
      }
    }
  }

  lemma NewRows(defs: Definitions, next: nat)
    requires forall pk | pk in defs :: pk < next
    ensures var f := Forward(defs, next);
            && (forall pk | pk in Current(f) :: next <= pk < next + COUNT && pk in f)
            && (forall m: nat | m < COUNT :: next + m in Current(f) && next + m in f && f[next + m] == Canonical(m))
  {
    hide Forward, Canonical, Retired, CanonicalKeys, ArchiveKey;
    ForwardRows(defs, next);
    ForwardCurrent(defs, next);
  }

  lemma RollbackTaken(defs: Definitions, next: nat, f: Definitions, i: nat)
    requires forall pk | pk in defs :: pk < next
    requires f == Forward(defs, next) && i < COUNT
    ensures RollbackKey(next + i, i) == ArchiveKey(ROLLBACK, next + i, Canonical(i)) == NthRollbackKey(next, i)
    ensures Free(f, next + i, RollbackKey(next + i, i)) <==> !Takes(defs, RollbackKey(next + i, i))
  {
    hide Forward, Retired, ArchiveKey, Canonical, Flags;
    var key := RollbackKey(next + i, i);
    ForwardRows(defs, next);
    ArchivePrefix(next + i, Canonical(i));
    forall q | q in f && q != next + i ensures f[q].key == key <==> q in defs && defs[q].key == key {
      if q in defs {
        if Retired(defs[q].key) { RetiredAreOrdinary(defs[q].key); ArchivePrefix(q, defs[q]); }
      } else {
        CanonicalKeyIsOrdinary(q - next);
      }
    }
    if pk :| pk in defs && defs[pk].key == key { assert pk in f && pk != next + i; }
  }

  lemma CanonicalKeyIsOrdinary(i: nat)
    requires i < COUNT
    ensures Canonical(i).key in CanonicalKeys()
    ensures !("p129_a" <= Canonical(i).key) && !("rollback_p129_a" <= Canonical(i).key)
  {
    CanonicalKeysAreOrdinary();
    hide CanonicalKeys, Flags;
  }

  /** Rolling back touches the new rows only, and what is then pending is what was archived. */
  lemma RolledRows(defs: Definitions, next: nat, f: Definitions, rolled: Definitions)
    requires forall pk | pk in defs :: pk < next
    requires f == Forward(defs, next) && rolled == Renamed(f, ROLLBACK, Current(f))
    ensures forall pk | pk in defs :: pk in f && pk in rolled && rolled[pk] == f[pk]
    ensures forall pk | pk in defs ::
              pk in Pending(rolled) <==> Retired(defs[pk].key) || "p129_a" <= defs[pk].key
    ensures forall pk | pk in rolled && pk !in defs ::
              && next <= pk < next + COUNT && pk !in Pending(rolled)
              && rolled[pk] == ArchivedRow(ROLLBACK, pk, Canonical(pk - next))
  {
    hide Forward, Stem, CanonicalKeys, ArchiveKey, Flags, Retired, Current;
    ForwardRows(defs, next);
    ForwardCurrent(defs, next);
    forall pk | pk in rolled
      ensures "p129_a" <= rolled[pk].key <==> pk in defs && (Retired(defs[pk].key) || "p129_a" <= defs[pk].key)
    {
      if pk in defs { ArchivePrefix(pk, defs[pk]); } else { ArchivePrefix(pk, Canonical(pk - next)); }
    }
  }

  /** Reading a key back makes it shorter. */
  lemma ReadBackIsShorter(d: Definition)
    requires Readable(d)
    ensures |RestoredRow(d).key| < |d.key|
  {
  }

  /** Migrating and reversing both go through and put every definition back. */
  predicate Restores(defs: Definitions, next: nat) {
    var f := Forward(defs, next);
    Clear(defs, ARCHIVE, ToArchive(defs)) && Reversible(f) && Keeps(defs, Reverse(f).value)
  }

  /** Every definition is still there, key, active flag and all. */
  predicate Keeps(defs: Definitions, r: Definitions) {
    forall pk | pk in defs :: pk in r && r[pk] == defs[pk]
  }

  /** What a cycle leaves: every definition that was there before, and the canonical ones inactive
      under rollback keys. */
  predicate Cycled(defs: Definitions, next: nat, r: Definitions) {
    && Keeps(defs, r)
    && (forall pk | pk in r && pk !in defs ::
          next <= pk < next + COUNT && r[pk] == ArchivedRow(ROLLBACK, pk, Canonical(pk - next)))
  }

  lemma CycledKey(defs: Definitions, next: nat, r: Definitions, pk: nat)
    requires Cycled(defs, next, r) && pk in r && pk !in defs
    ensures next <= pk < next + COUNT
    ensures r[pk].key == NthRollbackKey(next, pk - next) && !("p129_a" <= r[pk].key)
  {
    hide Canonical, ArchiveKey, Keeps;
    var i := pk - next;
    assert r[pk].key == ArchiveKey(ROLLBACK, pk, Canonical(i));
    assert i % COUNT == i && next + i == pk;
    ArchivePrefix(pk, Canonical(i));
  }

  lemma NthKeysDiffer(next: nat, m: nat, n: nat)
    requires m != n
    ensures NthRollbackKey(next, m) != NthRollbackKey(next, n)
  {
    hide ArchiveKey, Canonical;
    ArchiveKeysDiffer(ROLLBACK, next + m, Canonical(m % COUNT), next + n, Canonical(n % COUNT));
  }

  lemma ShiftedKey(next: nat, m: nat)
    ensures NthRollbackKey(next + COUNT, m) == NthRollbackKey(next, COUNT + m)
  {
    hide ArchiveKey, Canonical;
  }

  lemma ReversedRows(defs: Definitions, next: nat)
    requires NoPending(defs) && forall pk | pk in defs :: pk < next
    ensures var r := Reverse(Forward(defs, next)); r.Some? && Cycled(defs, next, r.value)
  {
    hide Forward, ArchivedRow, Renamed, Current, RestoredRow, Readable, Flags, Retired;
    var f := Forward(defs, next);
    var rolled := Renamed(f, ROLLBACK, Current(f));
    ForwardRows(defs, next);
    RolledRows(defs, next, f, rolled);
    forall pk | pk in Pending(rolled) ensures pk in defs && Readable(rolled[pk]) && RestoredRow(rolled[pk]) == defs[pk] {
      ArchivedRowReadsBack(pk, defs[pk]);
    }
  }

  /** Reversing right after migrating restores every definition, and the cycle can be repeated. */
  lemma ReverseOfForward(defs: Definitions, next: nat)
    requires Unique(defs) && NoPending(defs) && RollbackFree(defs, next, COUNT) && forall pk | pk in defs :: pk < next
    ensures var r := Reverse(Forward(defs, next));
            r.Some? && Cycled(defs, next, r.value) && Unique(r.value) && NoPending(r.value)
    ensures Restores(defs, next)
  {
    NoneToArchiveClash(defs);
    RollbackClearExactly(defs, next);
    ReversedRows(defs, next);
    CycleIsTidy(defs, next, Reverse(Forward(defs, next)).value);
    hide Forward, Reverse, Unique, Clear, RollbackFree;
  }

  /** A row whose key starts like an archive key does not come back. */
  lemma PendingIsLost(defs: Definitions, next: nat, pk: nat)
    requires forall q | q in defs :: q < next
    requires pk in defs && "p129_a" <= defs[pk].key && Reverse(Forward(defs, next)).Some?
    ensures var r := Reverse(Forward(defs, next)).value; pk in r && r[pk] != defs[pk]
  {
    hide Forward, Renamed, Current, RestoredRow, Readable, Retired;
    var f := Forward(defs, next);
    var rolled := Renamed(f, ROLLBACK, Current(f));
    ForwardRows(defs, next);
    RolledRows(defs, next, f, rolled);
    RetiredAreOrdinary(defs[pk].key);
    assert rolled[pk] == defs[pk];
    ReadBackIsShorter(rolled[pk]);
  }

  /** For any table with distinct keys: migrating and reversing go through and put every definition
      back exactly when no key starts like an archive key and the five rollback keys are not taken. */
  lemma RestoresExactly(defs: Definitions, next: nat)
    requires Unique(defs) && forall pk | pk in defs :: pk < next
    ensures Restores(defs, next) <==> NoPending(defs) && RollbackFree(defs, next, COUNT)
  {
    hide Unique, RollbackFree, Forward, Reverse, Clear;
    if NoPending(defs) && RollbackFree(defs, next, COUNT) { ReverseOfForward(defs, next); }
    if Restores(defs, next) {
      RollbackClearExactly(defs, next);
      forall pk | pk in defs ensures !("p129_a" <= defs[pk].key) {
        if "p129_a" <= defs[pk].key { PendingIsLost(defs, next, pk); }
      }
    }
  }

  lemma CycleIsTidy(defs: Definitions, next: nat, r: Definitions)
    requires Unique(defs) && NoPending(defs) && RollbackFree(defs, next, COUNT) && Cycled(defs, next, r)
    ensures Unique(r) && NoPending(r)
  {
    hide NthRollbackKey, Canonical, ArchivedRow;
    forall p | p in r && p !in defs ensures !("p129_a" <= r[p].key) { CycledKey(defs, next, r, p); }
    forall p, q | p in r && q in r && p != q && p !in defs ensures r[p].key != r[q].key {
      CycledKey(defs, next, r, p);
      if q in defs {
        assert !Takes(defs, NthRollbackKey(next, p - next));
      } else {
        CycledKey(defs, next, r, q);
        NthKeysDiffer(next, p - next, q - next);
      }
    }
  }

  lemma ArchivedKey(prefix: string, pk: nat, d: Definition)
    ensures ArchivedRow(prefix, pk, d).key == ArchiveKey(prefix, pk, d)
  {
  }

  /** n migrate-and-reverse cycles, each with fresh primary keys. */
  function Cycles(defs: Definitions, next: nat, n: nat): Option<Definitions>
    decreases n
  {
    if n == 0 then Some(defs)
    else
      var r := Reverse(Forward(defs, next));
      if r.None? then None else Cycles(r.value, next + COUNT, n - 1)
  }

  lemma LaterKeyStaysFree(defs: Definitions, next: nat, r: Definitions, m: nat)
    requires m >= COUNT && !Takes(defs, NthRollbackKey(next, m)) && Cycled(defs, next, r)
    ensures !Takes(r, NthRollbackKey(next, m))
  {
    hide NthRollbackKey, Canonical, ArchivedRow;
    forall pk | pk in r ensures r[pk].key != NthRollbackKey(next, m) {
      if pk in defs {
        assert r[pk] == defs[pk];
      } else {
        CycledKey(defs, next, r, pk);
        NthKeysDiffer(next, pk - next, m);
      }
    }
  }

  /** The rows a cycle leaves do not take the keys of later cycles. */
  lemma LaterKeysStayFree(defs: Definitions, next: nat, count: nat, r: Definitions)
    requires RollbackFree(defs, next, COUNT + count) && Cycled(defs, next, r)
    ensures RollbackFree(r, next + COUNT, count)
  {
    hide NthRollbackKey, Cycled, Takes;
    var later := next + COUNT;
    forall m: nat | m < count ensures !Takes(r, NthRollbackKey(later, m)) {
      ShiftedKey(next, m);
      LaterKeyStaysFree(defs, next, r, COUNT + m);
    }
  }

  lemma CycledBelow(defs: Definitions, next: nat, r: Definitions)
    requires Cycled(defs, next, r) && forall pk | pk in defs :: pk < next
    ensures forall pk | pk in r :: pk < next + COUNT
  {
    hide ArchivedRow, Canonical;
  }

  lemma FewerKeys(defs: Definitions, next: nat, more: nat, fewer: nat)
    requires RollbackFree(defs, next, more) && fewer <= more
    ensures RollbackFree(defs, next, fewer)
  {
    hide Takes, NthRollbackKey;
  }

  lemma KeepsItself(defs: Definitions)
    ensures Keeps(defs, defs)
  {
  }

  lemma KeepsThrough(defs: Definitions, next: nat, r: Definitions, last: Definitions)
    requires Cycled(defs, next, r) && Keeps(r, last)
    ensures Keeps(defs, last)
  {
    hide Canonical;
  }

  /** One cycle leaves what the next needs. */
  lemma CycleGoesOn(defs: Definitions, next: nat, count: nat)
    requires Unique(defs) && NoPending(defs) && RollbackFree(defs, next, COUNT + count) && forall pk | pk in defs :: pk < next
    ensures Reverse(Forward(defs, next)).Some?
    ensures var r := Reverse(Forward(defs, next)).value;
            && Cycled(defs, next, r) && Unique(r) && NoPending(r) && RollbackFree(r, next + COUNT, count)
            && forall pk | pk in r :: pk < next + COUNT
  {
    hide Forward, Reverse, Unique, NoPending, Restores, RollbackFree, Cycled;
    FewerKeys(defs, next, COUNT + count, COUNT);
    ReverseOfForward(defs, next);
    var r := Reverse(Forward(defs, next)).value;
    LaterKeysStayFree(defs, next, count, r);
    CycledBelow(defs, next, r);
  }

  /** However often the migration is applied and reversed, the original definitions come back. */
  lemma {:induction false} CyclesRestore(defs: Definitions, next: nat, n: nat)
    requires Unique(defs) && NoPending(defs) && RollbackFree(defs, next, COUNT * n) && forall pk | pk in defs :: pk < next
    ensures var r := Cycles(defs, next, n); r.Some? && Keeps(defs, r.value)
    decreases n
  {
    hide Forward, Reverse, Unique, NoPending, RollbackFree, Cycled, Keeps;
    if n == 0 {
      KeepsItself(defs);
    } else {
      CycleGoesOn(defs, next, COUNT * (n - 1));
      var r := Reverse(Forward(defs, next)).value;
      CyclesRestore(r, next + COUNT, n - 1);
      KeepsThrough(defs, next, r, Cycles(r, next + COUNT, n - 1).value);
    }
  }
}
