/** The state video-splitter.js keeps between events and the two handlers
    that change it: choosing a file, and pressing the process button. */
module Page {
  import opened Wrappers
  import opened JsText
  import opened Clips

  /** A file picked in the file input: its name and its contents. */
  datatype MediaFile = MediaFile(name: string, bytes: seq<bv8>)

  class VideoSplitter {
    /** `videoBlob`: the file chosen last, `None` while it is still `null`. */
    var videoBlob: Option<MediaFile>
    /** Whether the process button is enabled (`!processButton.disabled`). */
    var processEnabled: bool
    /** The items of `clipsList`, in document order. */
    var clips: seq<ClipItem>

    /** The page as loaded: no file yet, an empty clip list, and the process
        button as the markup sets it. */
    constructor(buttonEnabled: bool)
      ensures videoBlob == None && processEnabled == buttonEnabled && clips == []
    {
      videoBlob := None;
      processEnabled := buttonEnabled;
      clips := [];
    }

    /** The `change` handler of the file input: the first selected file, if
        there is one, becomes `videoBlob` and enables the process button;
        an empty selection changes nothing. */
    method SelectFile(files: seq<MediaFile>)
      modifies this
      ensures files != [] ==> videoBlob == Some(files[0]) && processEnabled
      ensures files == [] ==> videoBlob == old(videoBlob) && processEnabled == old(processEnabled)
      ensures clips == old(clips)
    {
      if files != [] {
        videoBlob := Some(files[0]);
        processEnabled := true;
      }
    }

    /** The tail of `createClip`: the new item goes at the end of the list. */
    method AppendClip(r: Range, index: nat)
      modifies this
      ensures clips == old(clips) + [CreateClip(r, index)]
      ensures videoBlob == old(videoBlob) && processEnabled == old(processEnabled)
    {
      clips := clips + [CreateClip(r, index)];
    }

    /** The `click` handler of the process button, which the browser only
        delivers while the button is enabled: the list is emptied, then one
        item is appended per line of the trimmed text, in order. Whatever the
        list held before is gone, every item carries the range parsed from
        its own line, and no two items share a download name. */
    method Process(text: string)
      requires processEnabled
      modifies this
      ensures videoBlob == old(videoBlob) && processEnabled == old(processEnabled)
      ensures clips == ClipList(ParseRanges(text))
      ensures forall i, j :: 0 <= i < j < |clips| ==> DownloadName(clips[i]) != DownloadName(clips[j])
      ensures AllWhitespace(text) ==> clips == [CreateClip(Range(None, None), 0)]
    {
      var lines := Lines(text);
      clips := [];
      var index := 0;
      while index < |lines|
        invariant index <= |lines|
        invariant videoBlob == old(videoBlob) && processEnabled == old(processEnabled)
        invariant |clips| == index
        invariant forall k :: 0 <= k < index ==> clips[k] == CreateClip(ParseLine(lines[k]), k)
      {
        AppendClip(ParseLine(lines[index]), index);
        index := index + 1;
      }
      ClipListOfLines(lines, clips);
      ClipListNamesDistinct(ParseRanges(text));
      if AllWhitespace(text) {
        BlankInput(text);
      }
    }
  }
}
