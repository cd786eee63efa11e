/** The registry of user-defined jsFunc lambdas (src/service/function.ts) and
    the settings object that holds it. */
module CustomFunctions {
  import opened Wrappers
  import opened QueryParser

  datatype CustomFunction = CustomFunction(name: string, code: string)

  /** `customFunctions.map(f => f.name)`. */
  function Names(fs: seq<CustomFunction>): seq<string> {
    seq(|fs|, i requires 0 <= i < |fs| => fs[i].name)
  }

  /** No two registered functions share a name. */
  predicate UniqueNames(fs: seq<CustomFunction>) {
    forall i, j :: 0 <= i < j < |fs| ==> fs[i].name != fs[j].name
  }

  /** `createCustomFunction(name, code)`: the record of exactly that name and code. */
  function CreateCustomFunction(name: string, code: string): (r: CustomFunction)
    ensures r.name == name && r.code == code
  {
    CustomFunction(name, code)
  }

  /** The list `saveFunction` leaves behind: unchanged when the name is
      taken, otherwise the new record appended. */
  function Saved(fs: seq<CustomFunction>, name: string, code: string): seq<CustomFunction> {
    if name in Names(fs) then fs else fs + [CreateCustomFunction(name, code)]
  }

  /** A taken name leaves the list as it is, whatever the new code. */
  lemma SavedExisting(fs: seq<CustomFunction>, i: nat, code: string)
    requires i < |fs|
    ensures Saved(fs, fs[i].name, code) == fs
  {
    assert Names(fs)[i] == fs[i].name;
  }

  /** A new name is appended at the end: one more entry, the earlier ones
      unchanged, the last one holding the name and the code. */
  lemma SavedAppends(fs: seq<CustomFunction>, name: string, code: string)
    requires forall i :: 0 <= i < |fs| ==> fs[i].name != name
    ensures var r := Saved(fs, name, code);
            |r| == |fs| + 1 && r[..|fs|] == fs && r[|fs|].name == name && r[|fs|].code == code
  {
    assert name !in Names(fs) by {
      forall k | 0 <= k < |Names(fs)| ensures Names(fs)[k] != name { assert Names(fs)[k] == fs[k].name; }
    }
    var r := Saved(fs, name, code);
    assert r[..|fs|] == fs;
  }

  /** Saving keeps the names unique. */
  lemma SavedUnique(fs: seq<CustomFunction>, name: string, code: string)
    requires UniqueNames(fs)
    ensures UniqueNames(Saved(fs, name, code))
  {
    if name !in Names(fs) {
      var r := Saved(fs, name, code);
      forall i, j | 0 <= i < j < |r| ensures r[i].name != r[j].name {
        if j == |fs| { assert Names(fs)[i] == fs[i].name; }
      }
    }
  }

  /** Saving the same name twice gives the list of saving it once. */
  lemma SavedTwice(fs: seq<CustomFunction>, name: string, code1: string, code2: string)
    ensures Saved(Saved(fs, name, code1), name, code2) == Saved(fs, name, code1)
  {
    var r := Saved(fs, name, code1);
    if name !in Names(fs) {
      assert Names(r)[|fs|] == name;
    }
  }

  /** The plugin settings: the registered functions and the code-block
      delimiters, and what was last written to disk. */
  class Settings {
    var customFunctions: seq<CustomFunction>
    var variableDelimiters: Delimiters
    /** The function list as `saveData` last wrote it, if it ever did. */
    var stored: Option<seq<CustomFunction>>

    /** `DEFAULT_SETTINGS`. */
    constructor ()
      ensures customFunctions == [] && variableDelimiters == Delimiters("{{", "}}") && stored == None
    {
      customFunctions := [];
      variableDelimiters := Delimiters("{{", "}}");
      stored := None;
    }

    /** `saveFunction(plugin, name, code)`: a taken name changes and saves
        nothing; a new one is appended and the settings are saved. */
    method SaveFunction(name: string, code: string)
      modifies this
      ensures customFunctions == Saved(old(customFunctions), name, code)
      ensures name in Names(old(customFunctions)) ==> stored == old(stored)
      ensures name !in Names(old(customFunctions)) ==> stored == Some(customFunctions)
      ensures UniqueNames(old(customFunctions)) ==> UniqueNames(customFunctions)
      ensures variableDelimiters == old(variableDelimiters)
    {
      if name in Names(customFunctions) {
        return;
      }
      if UniqueNames(customFunctions) { SavedUnique(customFunctions, name, code); }
      customFunctions := customFunctions + [CustomFunction(name, code)];
      stored := Some(customFunctions);
    }
  }
}
