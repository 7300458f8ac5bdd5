/**
 * The action descriptor of a rule (RegionEvent) and the media capability it
 * drives (MediaActions). The capability is not called here: firing an action
 * yields the sequence of calls it would make, in order, and the caller passes
 * that trace on.
 */
module Media {
  import opened Wrappers
  import opened Text

  /** The six operations of the MediaActions interface. */
  datatype MediaCall =
    | DisplayImage(file: string)
    | BlankImage
    | PlaySound(file: string)
    | Silence
    | DisplayText(file: string)
    | ClearText

  /** The three independent media channels an action may drive. */
  datatype Channel = ImageChannel | SoundChannel | TextChannel

  /** The binding value that stops a channel instead of starting it. */
  const Cancel: string := "cancel"

  /** The channel a media call acts on. */
  function ChannelOf(call: MediaCall): Channel
  {
    match call
    case DisplayImage(_) => ImageChannel
    case BlankImage => ImageChannel
    case PlaySound(_) => SoundChannel
    case Silence => SoundChannel
    case DisplayText(_) => TextChannel
    case ClearText => TextChannel
  }

  /** Position of a channel in the order image, sound, text. */
  function Rank(ch: Channel): nat
  {
    match ch
    case ImageChannel => 0
    case SoundChannel => 1
    case TextChannel => 2
  }

  /**
   * What one binding asks of its channel: nothing when unset, the stop call
   * for "cancel", and otherwise the start call for that resource name.
   */
  function BindingCalls(ch: Channel, binding: Option<string>): seq<MediaCall>
  {
    match binding
    case None => []
    case Some(f) =>
      if f == Cancel then
        match ch
        case ImageChannel => [BlankImage]
        case SoundChannel => [Silence]
        case TextChannel => [ClearText]
      else
        match ch
        case ImageChannel => [DisplayImage(f)]
        case SoundChannel => [PlaySound(f)]
        case TextChannel => [DisplayText(f)]
  }

  /** The calls of a trace that act on one channel, in order. */
  function OnChannel(calls: seq<MediaCall>, ch: Channel): (r: seq<MediaCall>)
    ensures |r| <= |calls|
    ensures forall i :: 0 <= i < |r| ==> ChannelOf(r[i]) == ch
  {
    if calls == [] then []
    else (if ChannelOf(calls[0]) == ch then [calls[0]] else []) + OnChannel(calls[1..], ch)
  }

  lemma {:induction false} OnChannelAppend(a: seq<MediaCall>, b: seq<MediaCall>, ch: Channel)
    ensures OnChannel(a + b, ch) == OnChannel(a, ch) + OnChannel(b, ch)
  {
    if a == [] {
      assert a + b == b;
    } else {
      assert (a + b)[1..] == a[1..] + b;
      OnChannelAppend(a[1..], b, ch);
    }
  }

  /** The calls a binding makes all act on that binding's channel. */
  lemma BindingCallsOnChannel(ch: Channel, binding: Option<string>, other: Channel)
    ensures OnChannel(BindingCalls(ch, binding), other) == if other == ch then BindingCalls(ch, binding) else []
  {
  }

  /** Number of bindings that are set. */
  function CountSet(image: Option<string>, sound: Option<string>, text: Option<string>): nat
  {
    (if image.Some? then 1 else 0) + (if sound.Some? then 1 else 0) + (if text.Some? then 1 else 0)
  }

  /** A child element of an action, as the rule file and toXML write it. */
  function ActionNode(tag: string, file: string): Node
  {
    Leaf(tag, [("file", file)])
  }

  /** The text of an action element at depth 2. */
  lemma ActionNodeText(tag: string, file: string)
    ensures Render(ActionNode(tag, file), 2) == "        <" + tag + " file=\"" + file + "\" />\n"
  {
    var attrs := ActionNode(tag, file).attrs;
    assert attrs[1..] == [];
    assert AttrsText(attrs) == AttrText("file", file);
    assert Indent(2) == "        ";
  }

  /** An optional action element. */
  function OptionalNode(tag: string, binding: Option<string>): seq<Node>
  {
    if binding.Some? then [ActionNode(tag, binding.value)] else []
  }

  /**
   * RegionEvent: three independent bindings, each unset (Java null), "cancel"
   * or a resource name.
   */
  class RegionEvent {
    var imageFile: Option<string>
    var soundFile: Option<string>
    var textFile: Option<string>

    /** A fresh descriptor has no binding set. */
    constructor ()
      ensures imageFile.None? && soundFile.None? && textFile.None?
    {
      imageFile := None;
      soundFile := None;
      textFile := None;
    }

    method SetImage(file: Option<string>)
      modifies this`imageFile
      ensures imageFile == file
    {
      imageFile := file;
    }

    method SetSound(file: Option<string>)
      modifies this`soundFile
      ensures soundFile == file
    {
      soundFile := file;
    }

    method SetText(file: Option<string>)
      modifies this`textFile
      ensures textFile == file
    {
      textFile := file;
    }

    /** The binding of one channel. */
    function Binding(ch: Channel): Option<string>
      reads this
    {
      match ch
      case ImageChannel => imageFile
      case SoundChannel => soundFile
      case TextChannel => textFile
    }

    /**
     * The calls the action makes when its rule fires: each channel is
     * dispatched on its own binding alone, at most one call per channel, in
     * the order image, sound, text. The descriptor itself is only read.
     */
    function Callback(): (calls: seq<MediaCall>)
      reads this
      ensures forall ch :: OnChannel(calls, ch) == BindingCalls(ch, Binding(ch))
      ensures forall i, j :: 0 <= i < j < |calls| ==> Rank(ChannelOf(calls[i])) < Rank(ChannelOf(calls[j]))
      ensures |calls| == CountSet(imageFile, soundFile, textFile)
    {
      var image :=
        if imageFile.None? then []
        else if imageFile.value == Cancel then [BlankImage]
        else [DisplayImage(imageFile.value)];
      var sound :=
        if soundFile.None? then []
        else if soundFile.value == Cancel then [Silence]
        else [PlaySound(soundFile.value)];
      var text :=
        if textFile.None? then []
        else if textFile.value == Cancel then [ClearText]
        else [DisplayText(textFile.value)];
      CallbackChannels(image, sound, text, imageFile, soundFile, textFile);
      image + sound + text
    }

    /** The action elements, one per set binding, in the order image, sound, text. */
    function ActionNodes(): seq<Node>
      reads this
    {
      OptionalNode("image", imageFile) + OptionalNode("sound", soundFile) + OptionalNode("text", textFile)
    }

    /** RegionEvent.toXML: the action elements, each on its own line at depth 2. */
    function ToXML(): (out: string)
      reads this
      ensures out == RenderAll(ActionNodes(), 2)
    {
      var image := if imageFile.Some? then "        <image file=\"" + imageFile.value + "\" />\n" else "";
      var sound := if soundFile.Some? then "        <sound file=\"" + soundFile.value + "\" />\n" else "";
      var text := if textFile.Some? then "        <text file=\"" + textFile.value + "\" />\n" else "";
      LineLiterals(imageFile, soundFile, textFile);
      ActionsText(imageFile, soundFile, textFile);
      image + sound + text
    }

    /** RegionEvent.toString: "name=value" for each set binding, in order, the first two followed by a blank. */
    function ToString(): (out: string)
      reads this
      ensures out == Entry("image", imageFile, " ") + Entry("sound", soundFile, " ") + Entry("text", textFile, "")
    {
      var image := if imageFile.Some? then "image=" + imageFile.value + " " else "";
      var sound := if soundFile.Some? then "sound=" + soundFile.value + " " else "";
      var text := if textFile.Some? then "text=" + textFile.value else "";
      EntryText("image", "image=", imageFile, " ");
      EntryText("sound", "sound=", soundFile, " ");
      EntryText("text", "text=", textFile, "");
      image + sound + text
    }
  }

  /** An entry spelled with its "name=" literal. */
  lemma EntryText(tag: string, lead: string, binding: Option<string>, sep: string)
    requires lead == tag + "="
    ensures Entry(tag, binding, sep) == if binding.Some? then lead + binding.value + sep else ""
  {
  }

  /**
   * The layout of RegionEvent.toString: empty iff nothing is set, led by the
   * first set binding, ending with the text binding or else with a blank.
   */
  lemma ToStringLayout(e: RegionEvent)
    ensures e.ToString() == "" <==> e.imageFile.None? && e.soundFile.None? && e.textFile.None?
    ensures e.imageFile.Some? ==> IsPrefix("image=" + e.imageFile.value + " ", e.ToString())
    ensures e.imageFile.None? && e.soundFile.Some? ==> IsPrefix("sound=" + e.soundFile.value + " ", e.ToString())
    ensures e.imageFile.None? && e.soundFile.None? && e.textFile.Some? ==> e.ToString() == "text=" + e.textFile.value
    ensures e.textFile.Some? ==> IsSuffix("text=" + e.textFile.value, e.ToString())
    ensures e.textFile.None? && e.ToString() != "" ==> e.ToString()[|e.ToString()| - 1] == ' '
  {
    var image := Entry("image", e.imageFile, " ");
    var sound := Entry("sound", e.soundFile, " ");
    var text := Entry("text", e.textFile, "");
    EntryText("image", "image=", e.imageFile, " ");
    EntryText("sound", "sound=", e.soundFile, " ");
    EntryText("text", "text=", e.textFile, "");
    var out := e.ToString();
    if e.imageFile.Some? {
      LeadsConcat(image, sound + text);
    } else if e.soundFile.Some? {
      LeadsConcat(sound, text);
    }
    if e.textFile.Some? {
      EndsConcat(image + sound, text);
    } else if e.soundFile.Some? {
      EndsConcat(image, sound);
    } else if e.imageFile.Some? {
      EndsConcat([], image);
    }
  }

  lemma LeadsConcat(a: string, b: string)
    ensures IsPrefix(a, a + b)
  {
    assert (a + b)[..|a|] == a;
  }

  lemma EndsConcat(a: string, b: string)
    ensures IsSuffix(b, a + b)
  {
    assert (a + b)[|a|..] == b;
  }


  /** One "name=value" entry of toString followed by sep, or nothing when the binding is unset. */
  function Entry(tag: string, binding: Option<string>, sep: string): (out: string)
    ensures binding.None? <==> out == ""
    ensures binding.Some? ==> IsPrefix(tag + "=", out) && IsSuffix(sep, out)
  {
    if binding.Some? then tag + "=" + binding.value + sep else ""
  }

  predicate IsPrefix(p: string, s: string)
  {
    |p| <= |s| && s[..|p|] == p
  }

  predicate IsSuffix(p: string, s: string)
  {
    |p| <= |s| && s[|s| - |p|..] == p
  }

  /** The binding among three that drives channel ch. */
  function Pick(ch: Channel, image: Option<string>, sound: Option<string>, text: Option<string>): Option<string>
  {
    match ch
    case ImageChannel => image
    case SoundChannel => sound
    case TextChannel => text
  }

  /** The per-channel traces computed by Callback meet its contract. */
  lemma CallbackChannels(
    image: seq<MediaCall>, sound: seq<MediaCall>, text: seq<MediaCall>,
    imageFile: Option<string>, soundFile: Option<string>, textFile: Option<string>)
    requires image == BindingCalls(ImageChannel, imageFile)
    requires sound == BindingCalls(SoundChannel, soundFile)
    requires text == BindingCalls(TextChannel, textFile)
    ensures forall ch ::
      OnChannel(image + sound + text, ch) == BindingCalls(ch, Pick(ch, imageFile, soundFile, textFile))
    ensures forall i, j :: 0 <= i < j < |image + sound + text| ==>
      Rank(ChannelOf((image + sound + text)[i])) < Rank(ChannelOf((image + sound + text)[j]))
    ensures |image + sound + text| == CountSet(imageFile, soundFile, textFile)
  {
    forall ch: Channel
      ensures OnChannel(image + sound + text, ch) == BindingCalls(ch, Pick(ch, imageFile, soundFile, textFile))
    {
      CallbackOnChannel(image, sound, text, imageFile, soundFile, textFile, ch);
    }
    CallbackOrder(image, sound, text, imageFile, soundFile, textFile);
  }

  /** One channel of the concatenated trace carries exactly that channel's binding calls. */
  lemma CallbackOnChannel(
    image: seq<MediaCall>, sound: seq<MediaCall>, text: seq<MediaCall>,
    imageFile: Option<string>, soundFile: Option<string>, textFile: Option<string>, ch: Channel)
    requires image == BindingCalls(ImageChannel, imageFile)
    requires sound == BindingCalls(SoundChannel, soundFile)
    requires text == BindingCalls(TextChannel, textFile)
    ensures OnChannel(image + sound + text, ch) == BindingCalls(ch, Pick(ch, imageFile, soundFile, textFile))
  {
    OnChannelAppend(image + sound, text, ch);
    OnChannelAppend(image, sound, ch);
    BindingCallsOnChannel(ImageChannel, imageFile, ch);
    BindingCallsOnChannel(SoundChannel, soundFile, ch);
    BindingCallsOnChannel(TextChannel, textFile, ch);
  }

  /** The image call, if any, comes before the sound call, which comes before the text call. */
  lemma CallbackOrder(
    image: seq<MediaCall>, sound: seq<MediaCall>, text: seq<MediaCall>,
    imageFile: Option<string>, soundFile: Option<string>, textFile: Option<string>)
    requires image == BindingCalls(ImageChannel, imageFile)
    requires sound == BindingCalls(SoundChannel, soundFile)
    requires text == BindingCalls(TextChannel, textFile)
    ensures forall i, j :: 0 <= i < j < |image + sound + text| ==>
      Rank(ChannelOf((image + sound + text)[i])) < Rank(ChannelOf((image + sound + text)[j]))
    ensures |image + sound + text| == CountSet(imageFile, soundFile, textFile)
  {
    var calls := image + sound + text;
    assert |image| <= 1 && |sound| <= 1 && |text| <= 1;
    forall k | 0 <= k < |calls|
      ensures Rank(ChannelOf(calls[k])) == if k < |image| then 0 else if k < |image| + |sound| then 1 else 2
    {
      if k < |image| {
        assert calls[k] == image[k];
      } else if k < |image| + |sound| {
        assert calls[k] == sound[k - |image|];
      } else {
        assert calls[k] == text[k - |image| - |sound|];
      }
    }
  }

  /** The line toXML writes for one binding. */
  function OptionalLine(tag: string, binding: Option<string>): string
  {
    if binding.Some? then "        <" + tag + " file=\"" + binding.value + "\" />\n" else ""
  }

  /** The concatenated action lines are the rendering of the action elements. */
  lemma ActionsText(imageFile: Option<string>, soundFile: Option<string>, textFile: Option<string>)
    ensures OptionalLine("image", imageFile) + OptionalLine("sound", soundFile) + OptionalLine("text", textFile)
         == RenderAll(OptionalNode("image", imageFile) + OptionalNode("sound", soundFile) + OptionalNode("text", textFile), 2)
  {
    var i, s, t := OptionalNode("image", imageFile), OptionalNode("sound", soundFile), OptionalNode("text", textFile);
    RenderAllAppend(i + s, t, 2);
    RenderAllAppend(i, s, 2);
    OptionalText("image", imageFile);
    OptionalText("sound", soundFile);
    OptionalText("text", textFile);
  }

  /** The literal lines of toXML are the lines OptionalLine describes. */
  lemma LineLiterals(imageFile: Option<string>, soundFile: Option<string>, textFile: Option<string>)
    ensures OptionalLine("image", imageFile)
         == if imageFile.Some? then "        <image file=\"" + imageFile.value + "\" />\n" else ""
    ensures OptionalLine("sound", soundFile)
         == if soundFile.Some? then "        <sound file=\"" + soundFile.value + "\" />\n" else ""
    ensures OptionalLine("text", textFile)
         == if textFile.Some? then "        <text file=\"" + textFile.value + "\" />\n" else ""
  {
    if imageFile.Some? {
      assert "        <" + "image" + " file=\"" == "        <image file=\"";
      LineLiteral("image", "        <image file=\"", imageFile.value);
    }
    if soundFile.Some? {
      assert "        <" + "sound" + " file=\"" == "        <sound file=\"";
      LineLiteral("sound", "        <sound file=\"", soundFile.value);
    }
    if textFile.Some? {
      assert "        <" + "text" + " file=\"" == "        <text file=\"";
      LineLiteral("text", "        <text file=\"", textFile.value);
    }
  }

  lemma LineLiteral(tag: string, head: string, file: string)
    requires head == "        <" + tag + " file=\""
    ensures OptionalLine(tag, Some(file)) == head + file + "\" />\n"
  {
  }

  lemma OptionalText(tag: string, binding: Option<string>)
    ensures RenderAll(OptionalNode(tag, binding), 2) == OptionalLine(tag, binding)
  {
    if binding.Some? {
      ActionNodeText(tag, binding.value);
      assert OptionalNode(tag, binding)[1..] == [];
    }
  }

  /** The elements written for an action are exactly its set bindings, in the order image, sound, text. */
  lemma ActionNodesAreSetBindings(e: RegionEvent)
    ensures |e.ActionNodes()| == CountSet(e.imageFile, e.soundFile, e.textFile)
    ensures e.imageFile.Some? ==> e.ActionNodes()[0] == ActionNode("image", e.imageFile.value)
    ensures e.textFile.Some? ==> e.ActionNodes()[|e.ActionNodes()| - 1] == ActionNode("text", e.textFile.value)
    ensures forall k :: 0 <= k < |e.ActionNodes()| ==> e.ActionNodes()[k].tag in ["image", "sound", "text"]
  {
  }
}
