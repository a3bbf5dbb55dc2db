/** Microphone discovery and selection of windows-v2.6-beta/src/transcriber.py:
    `get_available_microphones` keeps the input devices, and
    `_setup_microphone` picks one by exact index or by case-insensitive name
    fragment, falling back to the default device. */
module Microphone {
  import opened Wrappers
  import opened Text

  /** What the audio library reports for the device at a given position. */
  datatype DeviceInfo = DeviceInfo(name: string, maxInputChannels: int)

  /** An input device as `get_available_microphones` lists it. */
  datatype Device = Device(index: int, name: string, channels: int, isDefault: bool)

  /** The `--mic` argument after `main.py` has split it. */
  datatype Selector = ByIndex(index: int) | ByName(query: string)

  /** The transcriber's `mic_device_index` and `mic_device_name`. */
  datatype Choice = Choice(index: Option<int>, name: string)

  const DefaultChoice := Choice(None, "Default Microphone")

  /** The devices, from position `from` on, that could be queried and have
      at least one input channel, each tagged with its position and whether
      it is the default input device. A position whose query raised is
      `None` and is skipped. */
  function InputDevicesFrom(infos: seq<Option<DeviceInfo>>, from: nat, defaultIndex: int): (ds: seq<Device>)
    requires from <= |infos|
    ensures forall d | d in ds ::
              && from <= d.index < |infos|
              && infos[d.index].Some?
              && infos[d.index].value.maxInputChannels > 0
              && d == Device(d.index, infos[d.index].value.name, infos[d.index].value.maxInputChannels, d.index == defaultIndex)
    ensures forall i | from <= i < |infos| && infos[i].Some? && infos[i].value.maxInputChannels > 0 ::
      Device(i, infos[i].value.name, infos[i].value.maxInputChannels, i == defaultIndex) in ds
    ensures forall j, k | 0 <= j < k < |ds| :: ds[j].index < ds[k].index
    decreases |infos| - from
  {
    if from == |infos| then []
    else
      var rest := InputDevicesFrom(infos, from + 1, defaultIndex);
      match infos[from]
      case None => rest
      case Some(info) =>
        if info.maxInputChannels > 0 then
          [Device(from, info.name, info.maxInputChannels, from == defaultIndex)] + rest
        else rest
  }

  /** `get_available_microphones()`: the input devices in index order. When
      asking for the default input device raises (`defaultIndex` is `None`),
      the error is logged and no device is listed. */
  function InputDevices(infos: seq<Option<DeviceInfo>>, defaultIndex: Option<int>): (ds: seq<Device>)
    ensures defaultIndex.None? ==> ds == []
    ensures forall d | d in ds ::
              && 0 <= d.index < |infos|
              && infos[d.index].Some?
              && infos[d.index].value.maxInputChannels > 0
              && d == Device(d.index, infos[d.index].value.name, infos[d.index].value.maxInputChannels, Some(d.index) == defaultIndex)
    ensures defaultIndex.Some? ==>
      forall i | 0 <= i < |infos| && infos[i].Some? && infos[i].value.maxInputChannels > 0 ::
        Device(i, infos[i].value.name, infos[i].value.maxInputChannels, i == defaultIndex.value) in ds
    ensures forall j, k | 0 <= j < k < |ds| :: ds[j].index < ds[k].index
  {
    match defaultIndex
    case None => []
    case Some(di) => InputDevicesFrom(infos, 0, di)
  }

  /** Whether a device answers a selector: the exact index, or a name that
      contains the query once both are lower-cased. */
  predicate Matches(d: Device, sel: Selector) {
    match sel
    case ByIndex(i) => d.index == i
    case ByName(q) => Contains(Lower(d.name), Lower(q))
  }

  /** The position of the first device answering the selector. */
  function FirstMatch(devices: seq<Device>, sel: Selector): (r: Option<nat>)
    ensures r.Some? ==> r.value < |devices| && Matches(devices[r.value], sel)
    ensures r.Some? ==> forall j | 0 <= j < r.value :: !Matches(devices[j], sel)
    ensures r.None? <==> forall j | 0 <= j < |devices| :: !Matches(devices[j], sel)
    decreases |devices|
  {
    if devices == [] then None
    else if Matches(devices[0], sel) then Some(0)
    else
      match FirstMatch(devices[1..], sel)
      case None => None
      case Some(k) => Some(k + 1)
  }

  /** `_setup_microphone(mic_device)` after the constructor's defaults: the
      first device that answers the selector is taken; with no such device
      the default microphone stays selected. An index selector only ever
      yields that index. */
  method SetupMicrophone(devices: seq<Device>, sel: Selector) returns (choice: Choice)
    ensures FirstMatch(devices, sel).None? ==> choice == DefaultChoice
    ensures FirstMatch(devices, sel).Some? ==>
      var d := devices[FirstMatch(devices, sel).value];
      choice == Choice(Some(d.index), d.name)
    ensures sel.ByIndex? && choice.index.Some? ==> choice.index == Some(sel.index)
  {
    choice := DefaultChoice;
    var i := 0;
    while i < |devices|
      invariant 0 <= i <= |devices|
      invariant forall j | 0 <= j < i :: !Matches(devices[j], sel)
      invariant choice == DefaultChoice
    {
      if Matches(devices[i], sel) {
        FirstMatchIs(devices, sel, i);
        choice := Choice(Some(devices[i].index), devices[i].name);
        return;
      }
      i := i + 1;
    }
  }

  lemma FirstMatchIs(devices: seq<Device>, sel: Selector, i: nat)
    requires i < |devices| && Matches(devices[i], sel)
    requires forall j | 0 <= j < i :: !Matches(devices[j], sel)
    ensures FirstMatch(devices, sel) == Some(i)
  {
  }

  /** `main.py`'s `--mic` handling: an empty or missing argument selects no
      device; a decimal numeral becomes an index; anything else is a name. */
  function MicSelector(arg: Option<string>): (sel: Option<Selector>)
    ensures arg.None? || arg == Some("") ==> sel.None?
    ensures arg.Some? && arg.value != "" && AllDigits(arg.value) ==>
      sel == Some(ByIndex(DigitsValue(arg.value)))
    ensures arg.Some? && !AllDigits(arg.value) ==> sel == Some(ByName(arg.value))
  {
    match arg
    case None => None
    case Some(s) =>
      if s == "" then None
      else if AllDigits(s) then Some(ByIndex(DigitsValue(s)))
      else Some(ByName(s))
  }

  /** What the transcriber holds after construction: the default microphone
      unless a selector was given, in which case `_setup_microphone` decides. */
  method ConfigureMicrophone(devices: seq<Device>, sel: Option<Selector>) returns (choice: Choice)
    ensures sel.None? ==> choice == DefaultChoice
    ensures sel.Some? && FirstMatch(devices, sel.value).None? ==> choice == DefaultChoice
    ensures choice.index.Some? ==> exists d | d in devices :: choice == Choice(Some(d.index), d.name)
  {
    if sel.None? {
      return DefaultChoice;
    }
    choice := SetupMicrophone(devices, sel.value);
    if choice.index.Some? {
      var d := devices[FirstMatch(devices, sel.value).value];
      assert d in devices;
    }
  }
}
