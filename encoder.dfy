/** The encoder (ffmpeg) command lines the composition builds. Running a
    command is left to a parameter `run: Invocation -> bool` of the callers:
    whether the encoder succeeds is not modelled, only what it is asked. */
module Encoder {
  import opened Wrappers
  import opened Text
  import opened Entities

  /** One encoder command: its inputs in order, the options before the first
      input, the frame rate, the output options and the output file. */
  datatype Invocation = Invocation(
    inputs: seq<string>,
    inputOptions: seq<string>,
    fps: Option<int>,
    outputOptions: seq<string>,
    output: string)

  /** `downloadVideo`: copy a remote video to a local file. */
  function DownloadInvocation(url: string, outputPath: string): (inv: Invocation)
    ensures inv.inputs == [url] && inv.output == outputPath
    ensures inv.inputOptions == [] && inv.outputOptions == [] && inv.fps.None?
  {
    Invocation([url], [], None, [], outputPath)
  }

  const DefaultFps := 24

  /** `imageToVideo`: a still image looped for three seconds at
      `options.fps || 24` frames per second, scaled to 1280x720. */
  function ImageInvocation(imageUrl: string, outputPath: string, options: CompositionOptions): (inv: Invocation)
    ensures inv.inputs == [imageUrl] && inv.output == outputPath
    ensures inv.inputOptions == ["-loop 1", "-t 3"]
    ensures inv.fps == Some(if options.fps.Some? && options.fps.value != 0 then options.fps.value else DefaultFps)
    ensures inv.outputOptions == ["-c:v libx264", "-pix_fmt yuv420p", "-vf scale=1280:720"]
  {
    Invocation([imageUrl], ["-loop 1", "-t 3"], Some(NumberOr(options.fps, DefaultFps)),
               ["-c:v libx264", "-pix_fmt yuv420p", "-vf scale=1280:720"], outputPath)
  }

  // ---------------------------------------------------------------------------
  // composeFinalVideo

  const BaseOptions := ["-c:v libx264", "-pix_fmt yuv420p", "-preset medium"]

  /** The quality switch: the constant rate factor per quality, 23 for any
      other value or none. A lower factor means higher quality. */
  function Crf(quality: Option<string>): (crf: nat)
    ensures crf in {15, 18, 23, 28}
    ensures quality !in {Some("low"), Some("high"), Some("ultra")} ==> crf == 23
  {
    match quality
    case Some("low") => 28
    case Some("medium") => 23
    case Some("high") => 18
    case Some("ultra") => 15
    case _ => 23
  }

  /** The factor falls strictly from `low` to `ultra`, and an unknown quality
      encodes like `medium`. */
  lemma CrfOrder(unknown: string)
    requires unknown !in {"low", "medium", "high", "ultra"}
    ensures Crf(Some("low")) > Crf(Some("medium")) > Crf(Some("high")) > Crf(Some("ultra"))
    ensures Crf(Some(unknown)) == Crf(Some("medium")) == Crf(None)
  {
  }

  /** `options.transitions.duration || 0.5`, in seconds. */
  function TransitionSeconds(duration: Option<int>): (text: string)
    ensures duration.None? || duration.value == 0 ==> text == "0.5"
    ensures duration.Some? && duration.value != 0 ==> text == IntToString(duration.value)
  {
    if duration.Some? && duration.value != 0 then IntToString(duration.value) else "0.5"
  }

  /** The cross-fade filter. It always names the inputs 0, 1 and 2, whatever
      the number of clips. */
  function XfadeFilter(t: Transition): (option: string)
    ensures var step := "xfade=transition=" + t.kind + ":duration=" + TransitionSeconds(t.duration);
      StartsWith(option, "-filter_complex \"[0:v][1:v]" + step + "[v01];")
    ensures var step := "xfade=transition=" + t.kind + ":duration=" + TransitionSeconds(t.duration);
      var last := "[v01][2:v]" + step + "[v02]\"";
      |last| <= |option| && option[|option| - |last|..] == last
  {
    var step := "xfade=transition=" + t.kind + ":duration=" + TransitionSeconds(t.duration);
    "-filter_complex \"[0:v][1:v]" + step + "[v01];[v01][2:v]" + step + "[v02]\""
  }

  /** The filter refers to a third input, `[2:v]`. */
  lemma XfadeNamesThirdInput(t: Transition)
    ensures Contains(XfadeFilter(t), "[2:v]")
  {
    var step := "xfade=transition=" + t.kind + ":duration=" + TransitionSeconds(t.duration);
    var f := XfadeFilter(t);
    var at := |"-filter_complex \"[0:v][1:v]" + step + "[v01];[v01]"|;
    assert f == "-filter_complex \"[0:v][1:v]" + step + "[v01];[v01]" + "[2:v]" + step + "[v02]\"";
    assert f[at..at + 5] == "[2:v]";
    ContainsAt(f, "[2:v]", at);
  }

  /** The music input follows the clips, so its index is the clip count. */
  function MusicOptions(clipCount: nat): (opts: seq<string>)
    ensures |opts| == 5 && opts[1] == "-map " + NatToString(clipCount) + ":a"
  {
    ["-map 0:v", "-map " + NatToString(clipCount) + ":a", "-c:a aac", "-b:a 128k", "-shortest"]
  }

  predicate HasTransition(options: CompositionOptions) {
    options.transitions.Some? && options.transitions.value.kind != "none"
  }

  /** 1 when a scale option is pushed (`options.resolution` is non-empty). */
  function Scaled(options: CompositionOptions): nat {
    if Truthy(options.resolution) then 1 else 0
  }

  /** The output options `composeFinalVideo` pushes, in order. */
  function OutputOptions(clipCount: nat, options: CompositionOptions): (opts: seq<string>)
    ensures |opts| == 4 + Scaled(options) + (if HasTransition(options) then 1 else 0)
                      + (if options.backgroundMusic.Some? then 5 else 0)
    ensures opts[..3] == BaseOptions
    ensures Scaled(options) == 1 ==> opts[3] == "-vf scale=" + options.resolution.value
    ensures opts[3 + Scaled(options)] == "-crf " + NatToString(Crf(options.quality))
    ensures HasTransition(options) ==> opts[4 + Scaled(options)] == XfadeFilter(options.transitions.value)
    ensures options.backgroundMusic.Some? ==> opts[|opts| - 5..] == MusicOptions(clipCount)
  {
    var scale := if Truthy(options.resolution) then ["-vf scale=" + options.resolution.value] else [];
    var transition := if HasTransition(options) then [XfadeFilter(options.transitions.value)] else [];
    var music := if options.backgroundMusic.Some? then MusicOptions(clipCount) else [];
    BaseOptions + scale + ["-crf " + NatToString(Crf(options.quality))] + transition + music
  }

  /** Without music the options do not depend on the number of clips, so the
      three-input filter is the same for one clip or twenty. */
  lemma OptionsIgnoreClipCount(a: nat, b: nat, options: CompositionOptions)
    requires options.backgroundMusic.None?
    ensures OutputOptions(a, options) == OutputOptions(b, options)
  {
  }

  /** The command `composeFinalVideo` runs: the clips, then the music as the
      last input, with the output written to `outputPath`. */
  function FinalInvocation(sceneFiles: seq<string>, outputPath: string, options: CompositionOptions): (inv: Invocation)
    ensures |inv.inputs| == |sceneFiles| + (if options.backgroundMusic.Some? then 1 else 0)
    ensures inv.inputs[..|sceneFiles|] == sceneFiles
    ensures options.backgroundMusic.Some? ==> inv.inputs[|sceneFiles|] == options.backgroundMusic.value.url
    ensures inv.outputOptions == OutputOptions(|sceneFiles|, options)
    ensures inv.inputOptions == [] && inv.fps.None? && inv.output == outputPath
  {
    var music := if options.backgroundMusic.Some? then [options.backgroundMusic.value.url] else [];
    assert (sceneFiles + music)[..|sceneFiles|] == sceneFiles;
    Invocation(sceneFiles + music, [], None, OutputOptions(|sceneFiles|, options), outputPath)
  }

  /** `composeFinalVideo`: adds each clip as an input, then the music as the
      last input, and pushes the output options one group at a time. */
  method ComposeFinalVideo(sceneFiles: seq<string>, outputPath: string, options: CompositionOptions)
    returns (inv: Invocation)
    ensures inv == FinalInvocation(sceneFiles, outputPath, options)
  {
    var inputs: seq<string> := [];
    var i := 0;
    while i < |sceneFiles|
      invariant 0 <= i <= |sceneFiles|
      invariant inputs == sceneFiles[..i]
    {
      inputs := inputs + [sceneFiles[i]];
      i := i + 1;
    }
    assert inputs == sceneFiles;
    var outputOptions := BaseOptions;
    if Truthy(options.resolution) {
      outputOptions := outputOptions + ["-vf scale=" + options.resolution.value];
    }
    outputOptions := outputOptions + ["-crf " + NatToString(Crf(options.quality))];
    if HasTransition(options) {
      outputOptions := outputOptions + [XfadeFilter(options.transitions.value)];
    }
    if options.backgroundMusic.Some? {
      inputs := inputs + [options.backgroundMusic.value.url];
      outputOptions := outputOptions + MusicOptions(|sceneFiles|);
    }
    inv := Invocation(inputs, [], None, outputOptions, outputPath);
  }
}
