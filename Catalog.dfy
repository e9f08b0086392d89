/**
 * The terminal's fixed vocabulary: the command table, the application alias
 * table, the one readable virtual file, and `resolveAppId`, which maps a
 * typed application name to a window id.
 */
module Catalog {
  import opened Text
  import opened Wrappers

  /** The command names offered for completion, in table order. */
  const Commands: seq<string> :=
    ["help", "whoami", "ls", "open", "socials", "contact", "date", "clear", "cls", "exit", "status", "cat"]

  /** The one file `cat` can read, as `ls` and completion spell it. */
  const ReadableFile: string := "Reading.txt"

  /** One row of the alias table: a window id and the other names it answers to. */
  datatype AliasEntry = AliasEntry(id: string, aliases: seq<string>)

  /** The alias table, in its declaration order (the order `Object.entries` yields). */
  const AliasMap: seq<AliasEntry> := [
    AliasEntry("obvterm", ["terminal", "term", "shell"]),
    AliasEntry("about-me", ["about", "me", "bio"]),
    AliasEntry("projects", ["proj", "project", "work"]),
    AliasEntry("workbench", ["bench", "forge", "current"]),
    AliasEntry("academics", ["edu", "education", "school"]),
    AliasEntry("certifications", ["certs", "badges"]),
    AliasEntry("activities", ["activity", "clubs", "extra"]),
    AliasEntry("goals", ["goal"]),
    AliasEntry("contact", ["email", "reach", "talk"]),
    AliasEntry("library", ["reading", "books", "notes"])
  ]

  /** A name an alias-table row answers to: its id or one of its aliases. */
  predicate Matches(e: AliasEntry, name: string) {
    e.id == name || name in e.aliases
  }

  /** Every row's id followed by its aliases, row after row. */
  function Flatten(entries: seq<AliasEntry>): (names: seq<string>)
    ensures forall x :: x in names <==> exists i :: 0 <= i < |entries| && Matches(entries[i], x)
  {
    if |entries| == 0 then []
    else
      var rest := Flatten(entries[1..]);
      assert forall i :: 0 < i < |entries| ==> entries[i] == entries[1..][i - 1];
      [entries[0].id] + entries[0].aliases + rest
  }

  /** Flattening works row by row: the names of `a + b` are `a`'s names, then `b`'s. */
  lemma {:induction false} FlattenAppend(a: seq<AliasEntry>, b: seq<AliasEntry>)
    ensures Flatten(a + b) == Flatten(a) + Flatten(b)
  {
    if |a| == 0 {
      assert a + b == b;
    } else {
      var h := [a[0].id] + a[0].aliases;
      ConcatTail(a, b);
      assert Flatten(a + b) == h + Flatten(a[1..] + b);
      FlattenAppend(a[1..], b);
      assert Flatten(a) == h + Flatten(a[1..]);
      ConcatAssoc(h, Flatten(a[1..]), Flatten(b));
    }
  }

  /** One row flattens to its id, then its aliases in their listed order. */
  lemma FlattenRow(e: AliasEntry)
    ensures Flatten([e]) == [e.id] + e.aliases
  {
    assert [e][1..] == [];
  }

  /** A table's flattening starts with its first row's id, then that row's aliases. */
  lemma FlattenHead(entries: seq<AliasEntry>)
    requires |entries| > 0
    ensures 1 + |entries[0].aliases| <= |Flatten(entries)|
    ensures Flatten(entries)[..1 + |entries[0].aliases|] == [entries[0].id] + entries[0].aliases
  {
    var h := [entries[0].id] + entries[0].aliases;
    assert Flatten(entries) == h + Flatten(entries[1..]);
  }

  /** `appAliases`: every id and alias of the table once, first occurrence first. */
  function AppAliases(): (names: seq<string>)
    ensures Distinct(names)
    ensures forall x :: x in names <==> exists i :: 0 <= i < |AliasMap| && Matches(AliasMap[i], x)
  {
    Dedupe(Flatten(AliasMap))
  }

  /** The position of the first row that answers to `name`, or -1 (the loop of `resolveAppId`). */
  function FirstMatch(entries: seq<AliasEntry>, name: string): (k: int)
    ensures -1 <= k < |entries|
    ensures k == -1 <==> forall i :: 0 <= i < |entries| ==> !Matches(entries[i], name)
    ensures k >= 0 ==> Matches(entries[k], name) && forall i :: 0 <= i < k ==> !Matches(entries[i], name)
  {
    if |entries| == 0 then -1
    else if Matches(entries[0], name) then 0
    else
      var k := FirstMatch(entries[1..], name);
      assert forall i :: 0 < i < |entries| ==> entries[i] == entries[1..][i - 1];
      if k == -1 then -1 else k + 1
  }

  /**
   * `resolveAppId(name)`: nothing for the empty name; otherwise the lower-cased
   * name itself when the document has an element with that id, else the id of
   * the first alias-table row that answers to the lower-cased name.
   */
  function ResolveAppId(name: string, documentIds: set<string>): (r: Option<string>)
    ensures name == "" ==> r == None
    ensures name != "" && Lower(name) in documentIds ==> r == Some(Lower(name))
    ensures name != "" && Lower(name) !in documentIds ==>
      r == (var k := FirstMatch(AliasMap, Lower(name)); if k == -1 then None else Some(AliasMap[k].id))
    ensures r.None? <==>
      name == "" || (Lower(name) !in documentIds && forall i :: 0 <= i < |AliasMap| ==> !Matches(AliasMap[i], Lower(name)))
  {
    if name == "" then None
    else
      var lower := Lower(name);
      if lower in documentIds then Some(lower)
      else
        var k := FirstMatch(AliasMap, lower);
        if k == -1 then None else Some(AliasMap[k].id)
  }

  /** `resolveAppId` ignores the letter case of its input. */
  lemma ResolveIgnoresCase(name: string, documentIds: set<string>)
    ensures ResolveAppId(name, documentIds) == ResolveAppId(Lower(name), documentIds)
  {
    LowerIdempotent(name);
    assert name == "" <==> Lower(name) == "";
  }

  /** An alias typed in another letter case resolves through the table, unless the page has an element `term`. */
  lemma ResolveTermAlias(documentIds: set<string>)
    requires "term" !in documentIds
    ensures ResolveAppId("Term", documentIds) == Some("obvterm")
  {
    assert Lower("Term") == "term";
  }

  /** An alias of a later row resolves to that row's id. */
  lemma ResolveBioAlias()
    ensures ResolveAppId("bio", {}) == Some("about-me")
  {
    assert Lower("bio") == "bio";
    assert !Matches(AliasMap[0], "bio");
  }

  /** A document id wins over the table. */
  lemma ResolveDocumentId()
    ensures ResolveAppId("Shell", {"shell"}) == Some("shell")
  {
    assert Lower("Shell") == "shell";
  }

  /**
   * `appIds`: the `data-opens` value of each desktop icon, in page order, where
   * icons without one (absent or empty) are skipped.
   */
  function AppIdsOf(opens: seq<Option<string>>): (ids: seq<string>)
    ensures |ids| <= |opens|
    ensures forall x :: x in ids <==> x != "" && Some(x) in opens
  {
    if |opens| == 0 then []
    else
      var rest := AppIdsOf(opens[1..]);
      assert forall o :: o in opens <==> o == opens[0] || o in opens[1..];
      if opens[0].Some? && opens[0].value != "" then [opens[0].value] + rest else rest
  }

  /** The ids keep the icons' page order: the ids of `a + b` are `a`'s ids, then `b`'s. */
  lemma {:induction false} AppIdsOfAppend(a: seq<Option<string>>, b: seq<Option<string>>)
    ensures AppIdsOf(a + b) == AppIdsOf(a) + AppIdsOf(b)
  {
    if |a| == 0 {
      assert a + b == b;
    } else {
      var h := if a[0].Some? && a[0].value != "" then [a[0].value] else [];
      AppIdsOfStep(a, b);
      AppIdsOfAppend(a[1..], b);
      ConcatAssoc(h, AppIdsOf(a[1..]), AppIdsOf(b));
    }
  }

  // One unfolding of AppIdsOf on both sides, kept apart to keep AppIdsOfAppend cheap.
  lemma AppIdsOfStep(a: seq<Option<string>>, b: seq<Option<string>>)
    requires |a| > 0
    ensures var h := if a[0].Some? && a[0].value != "" then [a[0].value] else [];
      AppIdsOf(a + b) == h + AppIdsOf(a[1..] + b) && AppIdsOf(a) == h + AppIdsOf(a[1..])
  {
    ConcatTail(a, b);
  }
}
