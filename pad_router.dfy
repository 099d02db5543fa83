/**
 * Dynamic pad routing: the demultiplexer's new pad goes to the video queue
 * when its caps name contains "video", else to the audio queue when it
 * contains "audio", and is left unlinked otherwise.
 */
module PadRouter {
  import opened Wrappers

  datatype Queue = VideoQueue | AudioQueue

  /** Python's `pat in s` on strings, scanning from the left. */
  function Contains(s: string, pat: string): bool
    decreases |s|
  {
    if |pat| <= |s| && s[..|pat|] == pat then true
    else if s == [] then false
    else Contains(s[1..], pat)
  }

  /** `pat` occurs in `s` at offset `i`. */
  ghost predicate OccursAt(s: string, pat: string, i: int)
  {
    0 <= i && i + |pat| <= |s| && s[i..i + |pat|] == pat
  }

  /** Dropping the first character shifts every occurrence one place left. */
  lemma OccursShift(s: string, pat: string, i: nat)
    requires s != []
    ensures OccursAt(s, pat, i + 1) <==> OccursAt(s[1..], pat, i)
  {
    if i + 1 + |pat| <= |s| {
      assert s[i + 1..i + 1 + |pat|] == s[1..][i..i + |pat|];
    }
  }

  /** The scan finds `pat` exactly when it occurs somewhere in `s`. */
  lemma {:induction false} ContainsIffOccurs(s: string, pat: string)
    ensures Contains(s, pat) <==> exists i :: OccursAt(s, pat, i)
    decreases |s|
  {
    if |pat| <= |s| && s[..|pat|] == pat {
      assert OccursAt(s, pat, 0);
    } else if s != [] {
      ContainsIffOccurs(s[1..], pat);
      if Contains(s[1..], pat) {
        var i :| OccursAt(s[1..], pat, i);
        OccursShift(s, pat, i);
      }
      if exists i :: OccursAt(s, pat, i) {
        var i :| OccursAt(s, pat, i);
        assert i != 0;
        OccursShift(s, pat, i - 1);
      }
    }
  }

  /** on_pad_added's classification of a pad by its caps name. */
  function RoutePad(capsName: string): Option<Queue>
  {
    if Contains(capsName, "video") then Some(VideoQueue)
    else if Contains(capsName, "audio") then Some(AudioQueue)
    else None
  }

  /**
   * A pad is linked to the video queue iff "video" occurs in its caps name,
   * to the audio queue iff "audio" does and "video" does not, and to
   * nothing iff neither does.
   */
  lemma RoutePadSpec(capsName: string)
    ensures RoutePad(capsName) == Some(VideoQueue) <==> exists i :: OccursAt(capsName, "video", i)
    ensures RoutePad(capsName) == Some(AudioQueue) <==>
      (exists i :: OccursAt(capsName, "audio", i)) && !(exists i :: OccursAt(capsName, "video", i))
    ensures RoutePad(capsName) == None <==>
      !(exists i :: OccursAt(capsName, "audio", i)) && !(exists i :: OccursAt(capsName, "video", i))
  {
    ContainsIffOccurs(capsName, "video");
    ContainsIffOccurs(capsName, "audio");
  }
}
