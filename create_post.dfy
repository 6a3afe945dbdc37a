/**
  The upload form: a drop zone whose highlight follows drag events, the list of
  chosen files with per-file removal, and the submit handler.
*/
module CreatePostForm {

  /** A chosen image file; only what the form's logic looks at. */
  datatype File = File(name: string, size: nat)

  /** How the POST to /api/posts ended: an ok response, a non-ok response, or a thrown fetch. */
  datatype SubmitOutcome = Created | Refused | NetworkFailure

  /** `handleDrag`: "dragenter" and "dragover" light the zone, "dragleave" clears it. */
  function DragActiveAfter(active: bool, eventType: string): (r: bool)
    ensures eventType == "dragenter" || eventType == "dragover" ==> r
    ensures eventType == "dragleave" ==> !r
    ensures eventType !in {"dragenter", "dragover", "dragleave"} ==> r == active
  {
    if eventType == "dragenter" || eventType == "dragover" then true
    else if eventType == "dragleave" then false
    else active
  }

  /** `images.filter((_, i) => i !== index)`, walking the list. */
  function RemoveAt<T>(s: seq<T>, k: int): (r: seq<T>)
    ensures r == if 0 <= k < |s| then s[..k] + s[k + 1..] else s
    decreases |s|
  {
    if s == [] then []
    else if k == 0 then s[1..]
    else [s[0]] + RemoveAt(s[1..], k - 1)
  }

  /** Removing one file keeps every other file, in the same order. */
  lemma RemoveAtKeepsOthers<T>(s: seq<T>, k: int)
    requires 0 <= k < |s|
    ensures |RemoveAt(s, k)| == |s| - 1
    ensures forall i :: 0 <= i < k ==> RemoveAt(s, k)[i] == s[i]
    ensures forall i :: k <= i < |s| - 1 ==> RemoveAt(s, k)[i] == s[i + 1]
  {
  }

  class Form {
    var images: seq<File>
    var loading: bool
    var dragActive: bool

    constructor ()
      ensures images == [] && !loading && !dragActive
      ensures SubmitDisabled()
    {
      images := [];
      loading := false;
      dragActive := false;
    }

    /** The submit button is disabled while sending and while no file is chosen. */
    predicate SubmitDisabled()
      reads this
      ensures !SubmitDisabled() ==> |images| >= 1 && !loading
    {
      loading || |images| == 0
    }

    method HandleDrag(eventType: string)
      modifies this
      ensures dragActive == DragActiveAfter(old(dragActive), eventType)
      ensures images == old(images) && loading == old(loading)
    {
      if eventType == "dragenter" || eventType == "dragover" {
        dragActive := true;
      } else if eventType == "dragleave" {
        dragActive := false;
      }
    }

    /** A drop always clears the highlight; the files replace the list only if there is one. */
    method HandleDrop(files: seq<File>)
      modifies this
      ensures !dragActive && loading == old(loading)
      ensures images == if |files| > 0 then files else old(images)
    {
      dragActive := false;
      if |files| > 0 {
        images := files;
      }
    }

    /** The file input's change event: the selection replaces the list, even when empty. */
    method ChooseFiles(files: seq<File>)
      modifies this
      ensures images == files && loading == old(loading) && dragActive == old(dragActive)
    {
      images := files;
    }

    method Remove(index: int)
      modifies this
      ensures images == RemoveAt(old(images), index)
      ensures 0 <= index < |old(images)| ==> |images| == |old(images)| - 1
      ensures loading == old(loading) && dragActive == old(dragActive)
    {
      images := RemoveAt(images, index);
    }

    /**
      `handleSubmit`: nothing happens without files; otherwise every chosen file is
      sent, the list is cleared only when the server accepted the post, and
      `loading` is false again however the request ended.
    */
    method Submit(outcome: SubmitOutcome) returns (sent: seq<File>)
      modifies this
      ensures |old(images)| == 0 ==> sent == [] && images == old(images) && loading == old(loading)
      ensures |old(images)| > 0 ==> sent == old(images) && !loading
      ensures |old(images)| > 0 ==> images == (if outcome == Created then [] else old(images))
      ensures |old(images)| > 0 ==> (SubmitDisabled() <==> outcome == Created)
      ensures dragActive == old(dragActive)
    {
      sent := [];
      if |images| == 0 {
        return;
      }
      loading := true;
      sent := images;
      if outcome == Created {
        images := [];
      }
      loading := false;
    }
  }
}
