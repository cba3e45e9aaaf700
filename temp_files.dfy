/**
 * The names of the two temporary files of one voice message, and the
 * best-effort removal of both once recognition has finished. The local
 * filesystem is the set of names present in the working directory.
 */
module TempFiles {
  import opened Text

  const OgaExt: string := ".oga"
  const WavExt: string := ".wav"

  /** The name `download_file` writes the fetched voice message to. */
  function DownloadName(fileId: string): string {
    "voice_" + fileId + OgaExt
  }

  /** The name `oga2wav` exports the converted waveform to: `.oga` replaced by `.wav`. */
  function WavName(oga: string): string {
    Replace(oga, OgaExt, WavExt)
  }

  /** No `.oga` starts inside `voice_<id>` when the id has none: the prefix has no
      `.`, and `.oga` cannot overlap itself across the end of the id. */
  lemma DownloadNameStartsNoOga(fileId: string, i: nat)
    requires !Contains(fileId, OgaExt)
    requires i < 6 + |fileId|
    ensures !OccursAt(DownloadName(fileId), OgaExt, i)
  {
    var s := DownloadName(fileId);
    if i + 4 <= |s| {
      if i < 6 {
        assert s[i..i + 4][0] == s[i] == "voice_"[i];
      } else if i + 4 <= 6 + |fileId| {
        assert s[i..i + 4] == fileId[i - 6..i - 6 + 4];
        assert !OccursAt(fileId, OgaExt, i - 6);
      } else {
        var d := 6 + |fileId| - i;
        assert s[i..i + 4][d] == s[6 + |fileId|] == '.';
      }
    }
  }

  /** For a file id without `.oga` in it, the waveform of `voice_<id>.oga` is `voice_<id>.wav`. */
  lemma WavNameOfDownload(fileId: string)
    requires !Contains(fileId, OgaExt)
    ensures WavName(DownloadName(fileId)) == "voice_" + fileId + WavExt
  {
    var a := "voice_" + fileId;
    var s := DownloadName(fileId);
    assert s == a + OgaExt;
    forall k | 0 <= k < |a|
      ensures !OccursAt(s, OgaExt, k)
    {
      DownloadNameStartsNoOga(fileId, k);
    }
    ReplaceFromSkips(s, OgaExt, WavExt, 0, |a|);
    assert s[0..|a|] == a;
    assert s[|a|..|a| + 4] == OgaExt;
    assert ReplaceFrom(s, OgaExt, WavExt, |a| + 4) == [];
  }

  /** A name without `.oga` is its own waveform name (the export then overwrites it). */
  lemma WavNameOfPlainName(name: string)
    requires !Contains(name, OgaExt)
    ensures WavName(name) == name
  {
    ReplaceAbsent(name, OgaExt, WavExt);
  }

  /** The waveform name has the length of the name it came from. */
  lemma WavNameLength(oga: string)
    ensures |WavName(oga)| == |oga|
  {
    ReplaceKeepsLength(oga, OgaExt, WavExt);
  }

  /** No `.oga` occurs in what the replacement produces from offset `i` on, not
      even one formed across a replacement. */
  lemma {:induction false} NoOgaFrom(f: string, i: nat, k: int)
    requires i <= |f|
    ensures !OccursAt(ReplaceFrom(f, OgaExt, WavExt, i), OgaExt, k)
    decreases |f| - i
  {
    var out := ReplaceFrom(f, OgaExt, WavExt, i);
    if OccursAt(f, OgaExt, i) {
      var rest := ReplaceFrom(f, OgaExt, WavExt, i + 4);
      assert out == WavExt + rest;
      if k >= 4 {
        NoOgaFrom(f, i + 4, k - 4);
        OccursAtShift(WavExt, rest, OgaExt, k - 4);
      } else if 0 <= k && k + 4 <= |out| {
        assert out[k..k + 4][0] == out[k] && out[k..k + 4][1] == out[k + 1];
      }
    } else if i < |f| {
      var rest := ReplaceFrom(f, OgaExt, WavExt, i + 1);
      assert out == [f[i]] + rest;
      if k >= 1 {
        NoOgaFrom(f, i + 1, k - 1);
        OccursAtShift([f[i]], rest, OgaExt, k - 1);
      } else if OccursAt(out, OgaExt, k) {
        assert StartsWith(rest, "oga") by {
          assert rest[..3] == out[1..4];
        }
        ReplaceFromCopies(f, OgaExt, WavExt, i + 1, "oga");
        assert false;
      }
    }
  }

  /** Every `.oga` is replaced: none is left in the waveform name. */
  lemma WavNameHasNoOga(f: string)
    ensures !Contains(WavName(f), OgaExt)
  {
    forall k | 0 <= k <= |WavName(f)| - |OgaExt|
      ensures !OccursAt(WavName(f), OgaExt, k)
    {
      NoOgaFrom(f, 0, k);
    }
  }

  /** The `try` block that removes both temporary files, each only if it exists.
      A name in `undeletable` is one whose `os.remove` raises; the exception is
      swallowed and skips whatever removal was still to come. */
  function Cleanup(files: set<string>, oga: string, wav: string, undeletable: set<string>): (r: set<string>)
    ensures r <= files && files - r <= {oga, wav}
  {
    if oga in files && oga in undeletable then files
    else
      var afterOga := files - {oga};
      if wav in afterOga && wav in undeletable then afterOga else afterOga - {wav}
  }

  /** When both removals succeed, neither temporary file is left and nothing else is touched. */
  lemma CleanupRemovesBoth(files: set<string>, oga: string, wav: string, undeletable: set<string>)
    requires oga !in undeletable && wav !in undeletable
    ensures Cleanup(files, oga, wav, undeletable) == files - {oga, wav}
  {
  }

  /** The waveform the conversion created is removed along with the fetched file. */
  lemma CleanupAfterExport(files: set<string>, oga: string, wav: string, undeletable: set<string>)
    requires oga !in undeletable && wav !in undeletable
    ensures Cleanup(files + {wav}, oga, wav, undeletable) == files - {oga, wav}
  {
  }

  /** A failing removal of the fetched file leaves the waveform in place as well. */
  lemma CleanupStopsAtFirstFailure(files: set<string>, oga: string, wav: string, undeletable: set<string>)
    requires oga in files && oga in undeletable
    ensures Cleanup(files, oga, wav, undeletable) == files
  {
  }
}
