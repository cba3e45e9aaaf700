/**
 * Discovery of the speech-model folder at start-up: the first directory in the
 * working directory's listing whose lower-cased name contains `vosk-model`.
 * The listing is given as a sequence of entries in the order `os.listdir`
 * returns them, each with the answer `os.path.isdir` gives for it.
 */
module ModelDiscovery {
  import opened Common
  import opened Text

  datatype Entry = Entry(name: string, isDir: bool)

  const ModelMarker: string := "vosk-model"

  /** The test applied to each entry of the listing. */
  predicate IsModelDir(e: Entry) {
    e.isDir && Contains(Lower(e.name), ModelMarker)
  }

  /** `find_vosk_model`: the name of the first qualifying entry, or `None`. */
  method FindModel(listing: seq<Entry>) returns (found: Option<string>)
    ensures found.None? <==> forall i :: 0 <= i < |listing| ==> !IsModelDir(listing[i])
    ensures found.Some? ==>
      exists i :: 0 <= i < |listing| && IsModelDir(listing[i]) && listing[i].name == found.value
        && forall j :: 0 <= j < i ==> !IsModelDir(listing[j])
  {
    for i := 0 to |listing|
      invariant forall j :: 0 <= j < i ==> !IsModelDir(listing[j])
    {
      if IsModelDir(listing[i]) {
        return Some(listing[i].name);
      }
    }
    return None;
  }

  /** `c` becomes the lower-case `m` under `lower()`: it is `m` itself, the ASCII
      capital of `m`, or KELVIN SIGN when `m` is `k`. */
  predicate FoldsTo(c: char, m: char) {
    c == m || ('a' <= m <= 'z' && c as int == m as int - 32) || (m == 'k' && c == 'K')
  }

  /** The marker is spelled, in any mix of cases, at offset `i` of `name`. */
  predicate MarkerAt(name: string, i: int) {
    0 <= i && i + |ModelMarker| <= |name|
    && forall k :: 0 <= k < |ModelMarker| ==> FoldsTo(name[i + k], ModelMarker[k])
  }

  /** For a target character that `lower()` leaves alone, lower-casing a character
      gives it exactly when `FoldsTo` says so. */
  lemma FoldsToIffLower(c: char, m: char)
    requires !('A' <= m <= 'Z') && m != 'K'
    ensures LowerChar(c) == m <==> FoldsTo(c, m)
  {
  }

  /** No character of the marker is one that `lower()` changes. */
  lemma MarkerIsLowerCase(k: int)
    requires 0 <= k < |ModelMarker|
    ensures !('A' <= ModelMarker[k] <= 'Z') && ModelMarker[k] != 'K'
  {
  }

  /** The lower-cased name holds the marker at `i` exactly when the name spells it
      there in any case. */
  lemma OccursIffMarkerAt(name: string, i: int)
    ensures OccursAt(Lower(name), ModelMarker, i) <==> MarkerAt(name, i)
  {
    var l := Lower(name);
    var n := |ModelMarker|;
    if 0 <= i && i + n <= |name| {
      forall k | 0 <= k < n
        ensures l[i + k] == ModelMarker[k] <==> FoldsTo(name[i + k], ModelMarker[k])
      {
        MarkerIsLowerCase(k);
        assert l[i + k] == LowerChar(name[i + k]);
        FoldsToIffLower(name[i + k], ModelMarker[k]);
      }
      if MarkerAt(name, i) {
        assert l[i..i + n] == ModelMarker;
      }
      if OccursAt(l, ModelMarker, i) {
        forall k | 0 <= k < n
          ensures l[i + k] == ModelMarker[k]
        {
          assert l[i..i + n][k] == l[i + k];
        }
      }
    }
  }

  /** The match ignores case: an entry qualifies exactly when it is a directory
      whose name spells `vosk-model` somewhere in any mix of upper and lower case. */
  lemma ModelDirIffMarker(e: Entry)
    ensures IsModelDir(e) <==> e.isDir && exists i :: MarkerAt(e.name, i)
  {
    forall i
      ensures OccursAt(Lower(e.name), ModelMarker, i) <==> MarkerAt(e.name, i)
    {
      OccursIffMarkerAt(e.name, i);
    }
    if e.isDir && exists i :: MarkerAt(e.name, i) {
      var i :| MarkerAt(e.name, i);
      assert OccursAt(Lower(e.name), ModelMarker, i);
    }
  }
}
