/** Names of durable files: record, temporary and retired names, and what a directory listing keeps. */
module FileNames {
  import opened Prelude

  predicate IsHex(c: char) { '0' <= c <= '9' || 'a' <= c <= 'f' }

  /** The canonical hyphenated text of a UUID. */
  predicate IsUuidText(s: string) {
    && |s| == 36
    && forall i :: 0 <= i < 36 ==> if i == 8 || i == 13 || i == 18 || i == 23 then s[i] == '-' else IsHex(s[i])
  }

  const NIL_UUID: string := "00000000-0000-0000-0000-000000000000"

  type Uuid = s: string | IsUuidText(s) witness NIL_UUID

  lemma UuidHasNoDot(u: Uuid)
    ensures '.' !in u && u != ""
  {
  }

  // ----- `Path::extension` and `Path::file_stem` -------------------------

  function LastDot(name: string): (r: Option<nat>)
    ensures r.None? <==> '.' !in name
    ensures r.Some? ==> r.value < |name| && name[r.value] == '.' && '.' !in name[r.value + 1..]
  {
    if name == "" then None
    else if name[|name| - 1] == '.' then Some(|name| - 1)
    else
      assert name == name[..|name| - 1] + [name[|name| - 1]];
      var r := LastDot(name[..|name| - 1]);
      assert r.Some? ==> name[r.value + 1..] == name[..|name| - 1][r.value + 1..] + [name[|name| - 1]];
      r
  }

  function Extension(name: string): Option<string> {
    var dot := LastDot(name);
    if name == ".." || dot.None? || dot.value == 0 then None else Some(name[dot.value + 1..])
  }

  function Stem(name: string): string {
    var dot := LastDot(name);
    if name == ".." || dot.None? || dot.value == 0 then name else name[..dot.value]
  }

  /** What a directory scan keeps: names with the extension `json`. */
  predicate IsRecordName(name: string) { Extension(name) == Some("json") }

  /** The dot of a dotless suffix is the last dot. */
  lemma {:induction false} LastDotOf(before: string, after: string)
    requires '.' !in after
    ensures LastDot(before + "." + after) == Some(|before|)
    decreases |after|
  {
    var s := before + "." + after;
    if after == "" {
      assert s[|s| - 1] == '.';
    } else {
      var shorter := after[..|after| - 1];
      assert s[|s| - 1] == after[|after| - 1];
      assert s[..|s| - 1] == before + "." + shorter;
      LastDotOf(before, shorter);
    }
  }

  lemma ExtensionOf(before: string, after: string)
    requires '.' !in after && before != "" && after != ""
    ensures Extension(before + "." + after) == Some(after) && Stem(before + "." + after) == before
  {
    LastDotOf(before, after);
    var s := before + "." + after;
    assert s[|before| + 1..] == after && s[..|before|] == before;
  }

  // ----- The three kinds of name -----------------------------------------

  function RecordName(id: string): string { id + ".json" }

  function TemporaryName(name: string, unique: Uuid): string { "." + name + "." + unique + ".tmp" }

  function RetiredName(name: string, unique: Uuid): string { name + "." + ("unregistered-" + unique) }

  lemma RecordNameKept(id: string)
    requires id != ""
    ensures IsRecordName(RecordName(id)) && Stem(RecordName(id)) == id
  {
    ExtensionOf(id, "json");
    assert id + "." + "json" == RecordName(id);
  }

  /** A kept name is the record name of its stem. */
  lemma KeptNameIsRecordName(name: string)
    requires IsRecordName(name)
    ensures name == RecordName(Stem(name)) && Stem(name) != ""
  {
    var dot := LastDot(name).value;
    assert name == name[..dot] + [name[dot]] + name[dot + 1..];
  }

  /** Temporary files are invisible to every scan, whatever they are temporary for. */
  lemma TemporaryNameHidden(name: string, unique: Uuid)
    ensures !IsRecordName(TemporaryName(name, unique))
  {
    var before := "." + name + "." + unique;
    ExtensionOf(before, "tmp");
    assert before + "." + "tmp" == TemporaryName(name, unique);
  }

  /** So are records retired by unregistering an image. */
  lemma RetiredNameHidden(name: string, unique: Uuid)
    requires IsRecordName(name)
    ensures !IsRecordName(RetiredName(name, unique))
  {
    DotFree("unregistered-", unique);
    ExtensionOf(name, "unregistered-" + unique);
    assert |"unregistered-" + unique| > |"json"|;
  }

  lemma DotFree(word: string, unique: Uuid)
    requires '.' !in word
    ensures '.' !in word + unique
  {
    UuidHasNoDot(unique);
    hide IsUuidText;
  }
}
