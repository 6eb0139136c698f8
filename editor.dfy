/**
 * The script editor page: it edits one entry of the `scripts` list kept in
 * storage, updating the entry with the page's id in place or appending a new
 * one.
 *
 * Storage and the clock are parameters: the stored list comes in and the list
 * to store goes out, and the formatted time and the new entry's id (the
 * current time in milliseconds, as a string) are passed in.  An id of "" is
 * the page's `null` id: both are falsy, and an id taken from the page options
 * is a non-empty string whenever it is used.
 */
module Editor {
  import opened Wrappers

  datatype ScriptEntry = ScriptEntry(id: string, title: string, content: string, updatedAt: string)

  /** `scripts.findIndex(s => s.id === id)`: the first index with that id, or -1. */
  function FindIndex(scripts: seq<ScriptEntry>, id: string): (r: int)
    ensures -1 <= r < |scripts|
    ensures r == -1 <==> forall i :: 0 <= i < |scripts| ==> scripts[i].id != id
    ensures r >= 0 ==> scripts[r].id == id && forall i :: 0 <= i < r ==> scripts[i].id != id
    decreases |scripts|
  {
    if scripts == [] then -1
    else if scripts[0].id == id then 0
    else
      var k := FindIndex(scripts[1..], id);
      assert forall i :: 1 <= i < |scripts| ==> scripts[i] == scripts[1..][i - 1];
      if k == -1 then -1 else k + 1
  }

  /** `scripts.find(s => s.id === id)`. */
  function Find(scripts: seq<ScriptEntry>, id: string): (r: Option<ScriptEntry>)
    ensures r.Some? <==> exists i :: 0 <= i < |scripts| && scripts[i].id == id
    ensures r.Some? ==> r.value == scripts[FindIndex(scripts, id)]
  {
    var i := FindIndex(scripts, id);
    if i == -1 then None else Some(scripts[i])
  }

  /** The fields of the editor page that `loadScript` and `saveScript` use. */
  class EditorPage {
    var id: string
    var title: string
    var content: string

    /**
     * `onLoad`: with an id in the options the page takes it and loads the
     * stored entry with that id, if there is one.
     */
    constructor (optionsId: string, stored: seq<ScriptEntry>)
      ensures id == optionsId
      ensures optionsId != [] && Find(stored, optionsId).Some? ==>
        title == Find(stored, optionsId).value.title && content == Find(stored, optionsId).value.content
      ensures optionsId == [] || Find(stored, optionsId).None? ==> title == [] && content == []
    {
      id := [];
      title := [];
      content := [];
      new;
      if optionsId != [] {
        id := optionsId;
        LoadScript(stored, optionsId);
      }
    }

    /** `loadScript(id)`: title and content of the stored entry with that id, if any. */
    method LoadScript(stored: seq<ScriptEntry>, scriptId: string)
      modifies this
      ensures id == old(id)
      ensures Find(stored, scriptId).Some? ==>
        title == Find(stored, scriptId).value.title && content == Find(stored, scriptId).value.content
      ensures Find(stored, scriptId).None? ==> title == old(title) && content == old(content)
    {
      var script := Find(stored, scriptId);
      if script.Some? {
        title := script.value.title;
        content := script.value.content;
      }
    }

    /**
     * `saveScript`.  Empty content is refused and nothing is stored (`None`).
     * Otherwise, with an id, the first entry with that id gets the page's
     * title, content and time and every other entry is left as it was, and
     * when no entry has that id the list is stored unchanged; without an id
     * one new entry is appended at the end.
     */
    method SaveScript(stored: seq<ScriptEntry>, timeString: string, newId: string) returns (saved: Option<seq<ScriptEntry>>)
      ensures saved.None? <==> content == []
      ensures saved.Some? && id != [] && FindIndex(stored, id) == -1 ==> saved.value == stored
      ensures saved.Some? && id != [] && FindIndex(stored, id) >= 0 ==>
        var k := FindIndex(stored, id);
        && |saved.value| == |stored|
        && saved.value[k] == ScriptEntry(id, title, content, timeString)
        && forall j :: 0 <= j < |stored| && j != k ==> saved.value[j] == stored[j]
      ensures saved.Some? && id == [] ==>
        && |saved.value| == |stored| + 1
        && saved.value[..|stored|] == stored
        && saved.value[|stored|] == ScriptEntry(newId, title, content, timeString)
    {
      if content == [] {
        return None;
      }
      var scripts := stored;
      if id != [] {
        var index := FindIndex(scripts, id);
        if index > -1 {
          scripts := scripts[index := scripts[index].(title := title)];
          scripts := scripts[index := scripts[index].(content := content)];
          scripts := scripts[index := scripts[index].(updatedAt := timeString)];
        }
      } else {
        scripts := scripts + [ScriptEntry(newId, title, content, timeString)];
      }
      return Some(scripts);
    }
  }

  /**
   * Saving and loading agree: after a save of an existing entry, loading its
   * id gives back the saved title and content.
   */
  lemma SaveThenLoadExisting(stored: seq<ScriptEntry>, saved: seq<ScriptEntry>, id: string, title: string, content: string, timeString: string)
    requires id != [] && FindIndex(stored, id) >= 0
    requires |saved| == |stored|
    requires saved[FindIndex(stored, id)] == ScriptEntry(id, title, content, timeString)
    requires forall j :: 0 <= j < |stored| && j != FindIndex(stored, id) ==> saved[j] == stored[j]
    ensures Find(saved, id) == Some(ScriptEntry(id, title, content, timeString))
  {
    var k := FindIndex(stored, id);
    assert forall i :: 0 <= i < k ==> saved[i].id != id;
    assert FindIndex(saved, id) == k;
  }

  /**
   * After a save that appends a new entry whose id no stored entry has,
   * loading that id gives back the saved title and content.
   */
  lemma SaveThenLoadNew(stored: seq<ScriptEntry>, saved: seq<ScriptEntry>, newId: string, title: string, content: string, timeString: string)
    requires forall j :: 0 <= j < |stored| ==> stored[j].id != newId
    requires |saved| == |stored| + 1 && saved[..|stored|] == stored
    requires saved[|stored|] == ScriptEntry(newId, title, content, timeString)
    ensures Find(saved, newId) == Some(ScriptEntry(newId, title, content, timeString))
  {
    assert forall j :: 0 <= j < |stored| ==> saved[j] == stored[j];
    assert FindIndex(saved, newId) == |stored|;
  }
}
