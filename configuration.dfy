/** ConfigurationManager: the player's key bindings and colour, the fixed
    palette of eight colours with their names, and the lazily created
    single instance. Key codes are libGDX Input.Keys codes; a colour is
    compared by its four 8-bit channels, as libGDX's Color.equals compares
    its packed RGBA value. */
module Configuration {
  import opened Options

  // libGDX Input.Keys codes of the default bindings
  const KeyA: int := 29
  const KeyD: int := 32
  const KeyS: int := 47
  const KeyW: int := 51
  const KeySpace: int := 62

  datatype Color = Color(r: int, g: int, b: int, a: int)

  // libGDX's named colours used by the palette
  const Blue: Color := Color(0, 0, 255, 255)
  const Red: Color := Color(255, 0, 0, 255)
  const Green: Color := Color(0, 255, 0, 255)
  const Yellow: Color := Color(255, 255, 0, 255)
  const Purple: Color := Color(160, 32, 240, 255)
  const Orange: Color := Color(255, 165, 0, 255)
  const Cyan: Color := Color(0, 255, 255, 255)
  const Pink: Color := Color(255, 105, 180, 255)

  const AvailableColors: seq<Color> := [Blue, Red, Green, Yellow, Purple, Orange, Cyan, Pink]
  const ColorNames: seq<string> := ["Blue", "Red", "Green", "Yellow", "Purple", "Orange", "Cyan", "Pink"]

  /** The action names isKeyAssigned knows, in the order it checks them. */
  const Actions: seq<string> := ["up", "down", "left", "right", "action"]

  /** The palette and its names are parallel, eight long, without repeats. */
  lemma PaletteShape()
    ensures |AvailableColors| == |ColorNames| == 8
    ensures forall i, j :: 0 <= i < j < 8 ==> AvailableColors[i] != AvailableColors[j]
    ensures forall i, j :: 0 <= i < j < 8 ==> ColorNames[i] != ColorNames[j]
  {
  }

  /** The first position of c in colors, if any. */
  function IndexOf(colors: seq<Color>, c: Color): (r: Option<nat>)
    ensures r.Some? ==> r.value < |colors| && colors[r.value] == c
    ensures r.Some? ==> forall j :: 0 <= j < r.value ==> colors[j] != c
    ensures r.None? <==> c !in colors
  {
    if colors == [] then None
    else if colors[0] == c then Some(0)
    else match IndexOf(colors[1..], c)
      case None => None
      case Some(k) => Some(k + 1)
  }

  /** getColorIndex: the colour's palette position, or 0 if it has none. */
  function ColorIndexOf(c: Color): nat
  {
    match IndexOf(AvailableColors, c)
    case None => 0
    case Some(i) => i
  }

  /** getColorName: the name at the colour's palette position, or
      "Unknown" if it has none. */
  function ColorNameOf(c: Color): string
  {
    match IndexOf(AvailableColors, c)
    case None => "Unknown"
    case Some(i) => ColorNames[i]
  }

  /** Every palette colour is found at its own position and named by the
      name at that position; a colour outside the palette gets index 0 and
      the name "Unknown". */
  lemma ColorLookups(c: Color)
    ensures 0 <= ColorIndexOf(c) < 8
    ensures forall i :: 0 <= i < 8 && AvailableColors[i] == c ==> ColorIndexOf(c) == i && ColorNameOf(c) == ColorNames[i]
    ensures c !in AvailableColors ==> ColorIndexOf(c) == 0 && ColorNameOf(c) == "Unknown"
  {
    PaletteShape();
  }

  /** A name other than "Unknown" names exactly one palette colour, so a
      colour can be recovered from its name. */
  lemma NameIdentifiesColor(c1: Color, c2: Color)
    requires ColorNameOf(c1) == ColorNameOf(c2) != "Unknown"
    ensures c1 == c2
  {
    PaletteShape();
    var i1, i2 := IndexOf(AvailableColors, c1), IndexOf(AvailableColors, c2);
    assert i1.Some? && i2.Some?;
    assert ColorNames[i1.value] == ColorNames[i2.value];
  }

  class ConfigurationManager {
    var upKey: int
    var downKey: int
    var leftKey: int
    var rightKey: int
    var actionKey: int
    var playerColor: Color
    const availableColors: seq<Color> := AvailableColors
    const colorNames: seq<string> := ColorNames

    /** The bindings and colour a new manager starts with. */
    ghost predicate HasDefaults()
      reads this
    {
      upKey == KeyW && downKey == KeyS && leftKey == KeyA && rightKey == KeyD &&
      actionKey == KeySpace && playerColor == Blue
    }

    constructor ()
      ensures HasDefaults()
    {
      upKey := KeyW;
      downKey := KeyS;
      leftKey := KeyA;
      rightKey := KeyD;
      actionKey := KeySpace;
      playerColor := Blue;
    }

    method SetUpKey(key: int)
      modifies this`upKey
      ensures upKey == key
    {
      upKey := key;
    }

    method SetDownKey(key: int)
      modifies this`downKey
      ensures downKey == key
    {
      downKey := key;
    }

    method SetLeftKey(key: int)
      modifies this`leftKey
      ensures leftKey == key
    {
      leftKey := key;
    }

    method SetRightKey(key: int)
      modifies this`rightKey
      ensures rightKey == key
    {
      rightKey := key;
    }

    method SetActionKey(key: int)
      modifies this`actionKey
      ensures actionKey == key
    {
      actionKey := key;
    }

    method SetPlayerColor(color: Color)
      modifies this`playerColor
      ensures playerColor == color
    {
      playerColor := color;
    }

    /** The key bound to the k-th action. */
    function KeyOf(k: nat): int
      requires k < |Actions|
      reads this
    {
      [upKey, downKey, leftKey, rightKey, actionKey][k]
    }

    /** isKeyAssigned. */
    function IsKeyAssigned(keyCode: int, excludeAction: string): bool
      reads this
    {
      if excludeAction != "up" && upKey == keyCode then true
      else if excludeAction != "down" && downKey == keyCode then true
      else if excludeAction != "left" && leftKey == keyCode then true
      else if excludeAction != "right" && rightKey == keyCode then true
      else if excludeAction != "action" && actionKey == keyCode then true
      else false
    }

    /** A key is assigned exactly when some action other than the excluded
        one is bound to it. */
    lemma KeyAssignedMeaning(keyCode: int, excludeAction: string)
      ensures IsKeyAssigned(keyCode, excludeAction) <==>
                exists k :: 0 <= k < |Actions| && Actions[k] != excludeAction && KeyOf(k) == keyCode
    {
      assert KeyOf(0) == upKey && KeyOf(1) == downKey && KeyOf(2) == leftKey;
      assert KeyOf(3) == rightKey && KeyOf(4) == actionKey;
    }

    /** getColorIndex. */
    method GetColorIndex(color: Color) returns (index: nat)
      ensures index == ColorIndexOf(color)
    {
      var i := 0;
      while i < |availableColors|
        invariant 0 <= i <= |availableColors|
        invariant forall j :: 0 <= j < i ==> availableColors[j] != color
      {
        if availableColors[i] == color {
          assert IndexOf(availableColors, color) == Some(i);
          return i;
        }
        i := i + 1;
      }
      assert IndexOf(availableColors, color) == None;
      return 0;
    }

    /** getColorName. */
    method GetColorName(color: Color) returns (name: string)
      ensures name == ColorNameOf(color)
    {
      var i := 0;
      while i < |availableColors|
        invariant 0 <= i <= |availableColors|
        invariant forall j :: 0 <= j < i ==> availableColors[j] != color
      {
        if availableColors[i] == color {
          assert IndexOf(availableColors, color) == Some(i);
          return colorNames[i];
        }
        i := i + 1;
      }
      return "Unknown";
    }
  }

  /** The static instance slot behind getInstance. */
  class InstanceSlot {
    var instance: ConfigurationManager?

    constructor ()
      ensures instance == null
    {
      instance := null;
    }

    /** getInstance: a new manager with the defaults on the first call, the
        same manager on every later one. */
    method GetInstance() returns (c: ConfigurationManager)
      modifies this
      ensures instance == c
      ensures old(instance) != null ==> c == old(instance)
      ensures old(instance) == null ==> fresh(c) && c.HasDefaults()
    {
      if instance == null {
        instance := new ConfigurationManager();
      }
      c := instance;
    }
  }
}
