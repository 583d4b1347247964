/**
 * src/utils.h, coefficient files: the text that operator<< writes for a vector
 * of RGB or RGBA coefficients, and readRgb / readRgba, which rebuild such a
 * vector from the name -> values map that the JSON reader produces.
 *
 * The map is a std::map, iterated in ascending key order; it is modelled as the
 * sequence of its (name, values) entries in that order. Parsing the JSON text
 * into that map is not part of this model, and neither is the way a float is
 * printed: the writer takes the number formatter as a parameter.
 */
module CoefficientIO {
  import opened PixelFormat
  import opened SphericalHarmonic

  /** One entry of the channel map: a channel name and its list of values. */
  datatype Channel = Channel(name: string, values: seq<real>)

  /** std::string's operator<: lexicographic order on characters. */
  predicate StringLess(a: string, b: string)
  {
    if |b| == 0 then false
    else if |a| == 0 then true
    else if a[0] != b[0] then a[0] < b[0]
    else StringLess(a[1..], b[1..])
  }

  lemma {:induction false} StringLessIrreflexive(a: string)
    ensures !StringLess(a, a)
  {
    if |a| > 0 {
      StringLessIrreflexive(a[1..]);
    }
  }

  /** The entries of a std::map come in strictly ascending key order. */
  predicate KeyOrdered(channels: seq<Channel>)
  {
    forall i, j :: 0 <= i < j < |channels| ==> StringLess(channels[i].name, channels[j].name)
  }

  /** In a std::map no two entries share a name. */
  lemma KeyOrderedDistinct(channels: seq<Channel>, i: int, j: int)
    requires KeyOrdered(channels)
    requires 0 <= i < |channels| && 0 <= j < |channels| && i != j
    ensures channels[i].name != channels[j].name
  {
    if i < j {
      StringLessIrreflexive(channels[i].name);
    } else {
      StringLessIrreflexive(channels[j].name);
    }
  }

  /** The channel names in key order: alpha, blue, green, red. */
  lemma ChannelNameOrder()
    ensures StringLess("alpha", "blue") && StringLess("blue", "green") && StringLess("green", "red")
  {
  }

  /** channels.begin()->second.size(): the length of the first list in key order, 0 for an empty map. */
  function Size(channels: seq<Channel>): nat
  {
    if |channels| == 0 then 0 else |channels[0].values|
  }

  /**
   * Every list fits the vector, which is sized by the first one; a longer list
   * would make the reader write past the end of the vector.
   */
  predicate FitsFirst(channels: seq<Channel>)
  {
    forall k :: 0 <= k < |channels| ==> |channels[k].values| <= Size(channels)
  }

  /**
   * The value that the reader leaves in slot i for the channel called name:
   * the i-th value of the last entry of that name long enough to reach i, and
   * 0 (the value-initialised component) if there is none.
   */
  function Field(channels: seq<Channel>, name: string, i: int): real
  {
    if |channels| == 0 then 0.0
    else
      var last := channels[|channels| - 1];
      if last.name == name && 0 <= i < |last.values| then last.values[i]
      else Field(channels[..|channels| - 1], name, i)
  }

  lemma FieldSnoc(channels: seq<Channel>, c: Channel, name: string, i: int)
    ensures Field(channels + [c], name, i)
            == if c.name == name && 0 <= i < |c.values| then c.values[i] else Field(channels, name, i)
  {
    assert (channels + [c])[..|channels|] == channels;
  }

  /** A channel the map does not hold reads as 0 in every slot. */
  lemma {:induction false} FieldAbsent(channels: seq<Channel>, name: string, i: int)
    requires forall k :: 0 <= k < |channels| ==> channels[k].name != name
    ensures Field(channels, name, i) == 0.0
  {
    if |channels| > 0 {
      FieldAbsent(channels[..|channels| - 1], name, i);
    }
  }

  /**
   * In a std::map the value in slot i of a channel is exactly the i-th value of
   * the list stored under that name, and 0 past the end of that list.
   */
  lemma {:induction false} FieldLookup(channels: seq<Channel>, k: int, i: int)
    requires KeyOrdered(channels)
    requires 0 <= k < |channels|
    ensures Field(channels, channels[k].name, i)
            == if 0 <= i < |channels[k].values| then channels[k].values[i] else 0.0
  {
    var n := |channels| - 1;
    var prefix := channels[..n];
    assert KeyOrdered(prefix);
    if k == n {
      forall j | 0 <= j < |prefix|
        ensures prefix[j].name != channels[k].name
      {
        KeyOrderedDistinct(channels, j, k);
      }
      FieldAbsent(prefix, channels[k].name, i);
    } else {
      KeyOrderedDistinct(channels, k, n);
      FieldLookup(prefix, k, i);
    }
  }

  // ---------------------------------------------------------------- readRgb

  /** Slot i of readRgb's result, channel by channel. */
  function RgbAt(channels: seq<Channel>, i: int): RGB
  {
    RGB(Field(channels, "red", i), Field(channels, "green", i), Field(channels, "blue", i))
  }

  /** One assignment of the reader's loop: "red" sets r, "green" g, "blue" b, any other name nothing. */
  function SetRgb(v: RGB, name: string, value: real): RGB
  {
    if name == "red" then v.(r := value)
    else if name == "green" then v.(g := value)
    else if name == "blue" then v.(b := value)
    else v
  }

  lemma RgbAtSnoc(channels: seq<Channel>, c: Channel, i: int)
    ensures RgbAt(channels + [c], i)
            == if 0 <= i < |c.values| then SetRgb(RgbAt(channels, i), c.name, c.values[i]) else RgbAt(channels, i)
  {
    FieldSnoc(channels, c, "red", i);
    FieldSnoc(channels, c, "green", i);
    FieldSnoc(channels, c, "blue", i);
  }

  /**
   * readRgb after _read: an empty map gives an empty vector; otherwise the vector
   * has the first list's length and slot i holds the i-th red, green and blue values.
   */
  method ReadRgb(channels: seq<Channel>) returns (coefficients: seq<RGB>)
    requires FitsFirst(channels)
    ensures |coefficients| == Size(channels)
    ensures forall i :: 0 <= i < |coefficients| ==> coefficients[i] == RgbAt(channels, i)
  {
    if |channels| == 0 {
      return [];
    }
    var size := |channels[0].values|;
    coefficients := seq(size, _ => RGB(0.0, 0.0, 0.0));
    var k := 0;
    while k < |channels|
      invariant 0 <= k <= |channels|
      invariant |coefficients| == size
      invariant forall t :: 0 <= t < size ==> coefficients[t] == RgbAt(channels[..k], t)
    {
      var channel := channels[k].name;
      var values := channels[k].values;
      assert channels[..k + 1] == channels[..k] + [channels[k]];
      var i := 0;
      while i < |values|
        invariant 0 <= i <= |values| <= size
        invariant |coefficients| == size
        invariant forall t :: 0 <= t < i ==> coefficients[t] == RgbAt(channels[..k + 1], t)
        invariant forall t :: i <= t < size ==> coefficients[t] == RgbAt(channels[..k], t)
      {
        var value := values[i];
        RgbAtSnoc(channels[..k], channels[k], i);
        if channel == "red" {
          coefficients := coefficients[i := coefficients[i].(r := value)];
        } else if channel == "green" {
          coefficients := coefficients[i := coefficients[i].(g := value)];
        } else if channel == "blue" {
          coefficients := coefficients[i := coefficients[i].(b := value)];
        }
        i := i + 1;
      }
      forall t | |values| <= t < size
        ensures RgbAt(channels[..k + 1], t) == RgbAt(channels[..k], t)
      {
        RgbAtSnoc(channels[..k], channels[k], t);
      }
      k := k + 1;
    }
    assert channels[..|channels|] == channels;
  }

  /** For a std::map, slot i of readRgb's result holds the i-th value of the list named "red", or 0. */
  lemma RgbAtOfMap(channels: seq<Channel>, k: int, i: int)
    requires KeyOrdered(channels) && 0 <= k < |channels|
    ensures channels[k].name == "red" ==> RgbAt(channels, i).r == if 0 <= i < |channels[k].values| then channels[k].values[i] else 0.0
    ensures channels[k].name == "green" ==> RgbAt(channels, i).g == if 0 <= i < |channels[k].values| then channels[k].values[i] else 0.0
    ensures channels[k].name == "blue" ==> RgbAt(channels, i).b == if 0 <= i < |channels[k].values| then channels[k].values[i] else 0.0
  {
    FieldLookup(channels, k, i);
  }

  /** The list of one component, in coefficient order. */
  function Component<P>(h: seq<P>, component: P -> real): (values: seq<real>)
    ensures |values| == |h|
    ensures forall i :: 0 <= i < |h| ==> values[i] == component(h[i])
  {
    seq(|h|, i requires 0 <= i < |h| => component(h[i]))
  }

  function Red(v: RGB): real { v.r }
  function Green(v: RGB): real { v.g }
  function Blue(v: RGB): real { v.b }

  /** The channel map of a file written from h: the blue, green and red lists in key order. */
  function SplitRgb(h: seq<RGB>): seq<Channel>
  {
    [Channel("blue", Component(h, Blue)), Channel("green", Component(h, Green)), Channel("red", Component(h, Red))]
  }

  /** The lists of a written file form a well-formed map that fits the reader. */
  lemma SplitRgbIsMap(h: seq<RGB>)
    ensures KeyOrdered(SplitRgb(h)) && FitsFirst(SplitRgb(h)) && Size(SplitRgb(h)) == |h|
  {
    ChannelNameOrder();
  }

  /** Reading back the lists that the writer emits gives the coefficients that were written. */
  lemma ReadSplitRgb(h: seq<RGB>)
    ensures forall i :: 0 <= i < |h| ==> RgbAt(SplitRgb(h), i) == h[i]
  {
    var s := SplitRgb(h);
    SplitRgbIsMap(h);
    forall i | 0 <= i < |h|
      ensures RgbAt(s, i) == h[i]
    {
      FieldLookup(s, 0, i);
      FieldLookup(s, 1, i);
      FieldLookup(s, 2, i);
    }
  }

  // --------------------------------------------------------------- readRgba

  /** Slot i of readRgba's result, channel by channel. */
  function RgbaAt(channels: seq<Channel>, i: int): RGBA
  {
    RGBA(Field(channels, "red", i), Field(channels, "green", i), Field(channels, "blue", i), Field(channels, "alpha", i))
  }

  /** One assignment of readRgba's loop, which also routes "alpha" to a. */
  function SetRgba(v: RGBA, name: string, value: real): RGBA
  {
    if name == "red" then v.(r := value)
    else if name == "green" then v.(g := value)
    else if name == "blue" then v.(b := value)
    else if name == "alpha" then v.(a := value)
    else v
  }

  lemma RgbaAtSnoc(channels: seq<Channel>, c: Channel, i: int)
    ensures RgbaAt(channels + [c], i)
            == if 0 <= i < |c.values| then SetRgba(RgbaAt(channels, i), c.name, c.values[i]) else RgbaAt(channels, i)
  {
    FieldSnoc(channels, c, "red", i);
    FieldSnoc(channels, c, "green", i);
    FieldSnoc(channels, c, "blue", i);
    FieldSnoc(channels, c, "alpha", i);
  }

  /** readRgba after _read: as readRgb, with the list named "alpha" going to a. */
  method ReadRgba(channels: seq<Channel>) returns (coefficients: seq<RGBA>)
    requires FitsFirst(channels)
    ensures |coefficients| == Size(channels)
    ensures forall i :: 0 <= i < |coefficients| ==> coefficients[i] == RgbaAt(channels, i)
  {
    if |channels| == 0 {
      return [];
    }
    var size := |channels[0].values|;
    coefficients := seq(size, _ => RGBA(0.0, 0.0, 0.0, 0.0));
    var k := 0;
    while k < |channels|
      invariant 0 <= k <= |channels|
      invariant |coefficients| == size
      invariant forall t :: 0 <= t < size ==> coefficients[t] == RgbaAt(channels[..k], t)
    {
      var channel := channels[k].name;
      var values := channels[k].values;
      assert channels[..k + 1] == channels[..k] + [channels[k]];
      var i := 0;
      while i < |values|
        invariant 0 <= i <= |values| <= size
        invariant |coefficients| == size
        invariant forall t :: 0 <= t < i ==> coefficients[t] == RgbaAt(channels[..k + 1], t)
        invariant forall t :: i <= t < size ==> coefficients[t] == RgbaAt(channels[..k], t)
      {
        var value := values[i];
        RgbaAtSnoc(channels[..k], channels[k], i);
        if channel == "red" {
          coefficients := coefficients[i := coefficients[i].(r := value)];
        } else if channel == "green" {
          coefficients := coefficients[i := coefficients[i].(g := value)];
        } else if channel == "blue" {
          coefficients := coefficients[i := coefficients[i].(b := value)];
        } else if channel == "alpha" {
          coefficients := coefficients[i := coefficients[i].(a := value)];
        }
        i := i + 1;
      }
      forall t | |values| <= t < size
        ensures RgbaAt(channels[..k + 1], t) == RgbaAt(channels[..k], t)
      {
        RgbaAtSnoc(channels[..k], channels[k], t);
      }
      k := k + 1;
    }
    assert channels[..|channels|] == channels;
  }

  function RedA(v: RGBA): real { v.r }
  function GreenA(v: RGBA): real { v.g }
  function BlueA(v: RGBA): real { v.b }
  function AlphaA(v: RGBA): real { v.a }

  /** The channel map of a file written from RGBA coefficients: alpha, blue, green, red. */
  function SplitRgba(h: seq<RGBA>): seq<Channel>
  {
    [Channel("alpha", Component(h, AlphaA)), Channel("blue", Component(h, BlueA)),
     Channel("green", Component(h, GreenA)), Channel("red", Component(h, RedA))]
  }

  lemma SplitRgbaIsMap(h: seq<RGBA>)
    ensures KeyOrdered(SplitRgba(h)) && FitsFirst(SplitRgba(h)) && Size(SplitRgba(h)) == |h|
  {
    ChannelNameOrder();
  }

  /** Reading back the four lists that the RGBA writer emits gives the coefficients that were written. */
  lemma ReadSplitRgba(h: seq<RGBA>)
    ensures forall i :: 0 <= i < |h| ==> RgbaAt(SplitRgba(h), i) == h[i]
  {
    var s := SplitRgba(h);
    SplitRgbaIsMap(h);
    forall i | 0 <= i < |h|
      ensures RgbaAt(s, i) == h[i]
    {
      FieldLookup(s, 0, i);
      FieldLookup(s, 1, i);
      FieldLookup(s, 2, i);
      FieldLookup(s, 3, i);
    }
  }

  /** readRgb ignores an "alpha" list: the RGB part of readRgba's slot is readRgb's slot. */
  lemma RgbIgnoresAlpha(channels: seq<Channel>, i: int)
    ensures var v := RgbaAt(channels, i); RgbAt(channels, i) == RGB(v.r, v.g, v.b)
  {
  }

  // ---------------------------------------------------------------- writers

  /** The items separated by ", ", as the writer's loops print them. */
  function Join(items: seq<string>): string
  {
    if |items| == 0 then ""
    else if |items| == 1 then items[0]
    else Join(items[..|items| - 1]) + ", " + items[|items| - 1]
  }

  lemma JoinSnoc(items: seq<string>, item: string)
    requires |items| >= 1
    ensures Join(items + [item]) == Join(items) + ", " + item
  {
    assert (items + [item])[..|items|] == items;
  }

  /** The first item is followed by ", " and the rest. */
  lemma {:induction false} JoinCons(items: seq<string>)
    requires |items| >= 2
    ensures Join(items) == items[0] + ", " + Join(items[1..])
  {
    var n := |items|;
    if n > 2 {
      JoinCons(items[..n - 1]);
      assert items[..n - 1][1..] == items[1..][..n - 2];
    }
  }

  /** The formatted values of one component. */
  function Formatted<P>(h: seq<P>, component: P -> real, number: real -> string): seq<string>
  {
    seq(|h|, i requires 0 <= i < |h| => number(component(h[i])))
  }

  /**
   * One of the writer's loops: for each coefficient, ", " unless it is the
   * first, then the formatted component.
   */
  method AppendList<P>(stream: string, h: seq<P>, component: P -> real, number: real -> string)
    returns (out: string)
    ensures out == stream + Join(Formatted(h, component, number))
  {
    out := stream;
    var i := 0;
    while i < |h|
      invariant 0 <= i <= |h|
      invariant out == stream + Join(Formatted(h[..i], component, number))
    {
      AppendStep(stream, h, i, component, number);
      if i != 0 {
        out := out + ", ";
      }
      out := out + number(component(h[i]));
      i := i + 1;
    }
    assert h[..|h|] == h;
  }

  /** One round of AppendList: the separator, unless first, then the next formatted component. */
  lemma AppendStep<P>(stream: string, h: seq<P>, i: nat, component: P -> real, number: real -> string)
    requires i < |h|
    ensures stream + Join(Formatted(h[..i + 1], component, number))
         == (if i != 0 then stream + Join(Formatted(h[..i], component, number)) + ", "
             else stream + Join(Formatted(h[..i], component, number)))
            + number(component(h[i]))
  {
    var before := Formatted(h[..i], component, number);
    var item := number(component(h[i]));
    assert Formatted(h[..i + 1], component, number) == before + [item];
    if i != 0 {
      JoinSnoc(before, item);
    } else {
      assert before + [item] == [item];
    }
  }

  function Digit(d: nat): char
    requires d < 10
  {
    ('0' as int + d) as char
  }

  /** A uint16_t written to a stream: its decimal digits, without leading zeros. */
  function Decimal(n: nat): (s: string)
    ensures |s| >= 1 && (s[0] == '0' ==> n == 0)
    ensures forall i :: 0 <= i < |s| ==> '0' <= s[i] <= '9'
  {
    if n < 10 then [Digit(n)] else Decimal(n / 10) + [Digit(n % 10)]
  }

  /** The number a string of decimal digits denotes. */
  function DecimalValue(s: string): nat
    requires forall i :: 0 <= i < |s| ==> '0' <= s[i] <= '9'
  {
    if |s| == 0 then 0 else 10 * DecimalValue(s[..|s| - 1]) + (s[|s| - 1] as int - '0' as int)
  }

  /** The printed order reads back as the order. */
  lemma {:induction false} DecimalRoundTrip(n: nat)
    ensures DecimalValue(Decimal(n)) == n
  {
    if n >= 10 {
      DecimalRoundTrip(n / 10);
      var s := Decimal(n);
      assert s[..|s| - 1] == Decimal(n / 10);
    }
  }

  /** The JSON text operator<< writes for RGB coefficients. */
  function RgbDocument(h: seq<RGB>, number: real -> string): string
    requires 1 <= |h| < 0x1_0001 * 0x1_0001
  {
    "{\n"
    + "\t\"order\": " + Decimal(Order(h)) + ", \n"
    + "\t\"channels\": {\n"
    + "\t\t\"red\": [" + Join(Formatted(h, Red, number)) + "],\n"
    + "\t\t\"green\": [" + Join(Formatted(h, Green, number)) + "],\n"
    + "\t\t\"blue\": [" + Join(Formatted(h, Blue, number)) + "]\n"
    + "\t}\n"
    + "}"
  }

  /** operator<< for RGB coefficients, std::endl being "\n". */
  method WriteRgb(h: seq<RGB>, number: real -> string) returns (stream: string)
    requires 1 <= |h| < 0x1_0001 * 0x1_0001
    ensures stream == RgbDocument(h, number)
  {
    stream := "{\n";
    stream := stream + "\t\"order\": " + Decimal(Order(h)) + ", \n";
    stream := stream + "\t\"channels\": {\n";
    stream := stream + "\t\t\"red\": [";
    stream := AppendList(stream, h, Red, number);
    stream := stream + "],\n";
    stream := stream + "\t\t\"green\": [";
    stream := AppendList(stream, h, Green, number);
    stream := stream + "],\n";
    stream := stream + "\t\t\"blue\": [";
    stream := AppendList(stream, h, Blue, number);
    stream := stream + "]\n";
    stream := stream + "\t}\n";
    stream := stream + "}";
  }

  /** The JSON text operator<< writes for RGBA coefficients. */
  function RgbaDocument(h: seq<RGBA>, number: real -> string): string
    requires 1 <= |h| < 0x1_0001 * 0x1_0001
  {
    "{\n"
    + "\t\"order\": " + Decimal(Order(h)) + ", \n"
    + "\t\"channels\": {\n"
    + "\t\t\"red\": [" + Join(Formatted(h, RedA, number)) + "],\n"
    + "\t\t\"green\": [" + Join(Formatted(h, GreenA, number)) + "],\n"
    + "\t\t\"blue\": [" + Join(Formatted(h, BlueA, number)) + "],\n"
    + "\t\t\"alpha\": [" + Join(Formatted(h, AlphaA, number)) + "]\n"
    + "\t}\n"
    + "}"
  }

  /** operator<< for RGBA coefficients. */
  method WriteRgba(h: seq<RGBA>, number: real -> string) returns (stream: string)
    requires 1 <= |h| < 0x1_0001 * 0x1_0001
    ensures stream == RgbaDocument(h, number)
  {
    stream := "{\n";
    stream := stream + "\t\"order\": " + Decimal(Order(h)) + ", \n";
    stream := stream + "\t\"channels\": {\n";
    stream := stream + "\t\t\"red\": [";
    stream := AppendList(stream, h, RedA, number);
    stream := stream + "],\n";
    stream := stream + "\t\t\"green\": [";
    stream := AppendList(stream, h, GreenA, number);
    stream := stream + "],\n";
    stream := stream + "\t\t\"blue\": [";
    stream := AppendList(stream, h, BlueA, number);
    stream := stream + "],\n";
    stream := stream + "\t\t\"alpha\": [";
    stream := AppendList(stream, h, AlphaA, number);
    stream := stream + "]\n";
    stream := stream + "\t}\n";
    stream := stream + "}";
  }

  // ---------------------------------------- reading a written list back

  /** The index of the first ',' in s, or |s| if there is none. */
  function FirstComma(s: string): (k: nat)
    ensures k <= |s|
    ensures forall j :: 0 <= j < k ==> s[j] != ','
    ensures k < |s| ==> s[k] == ','
  {
    if |s| == 0 || s[0] == ',' then 0 else 1 + FirstComma(s[1..])
  }

  /** A list body split at each ',' with the space after it dropped. */
  function Fields(s: string): seq<string>
    decreases |s|
  {
    var k := FirstComma(s);
    if k == |s| then [s]
    else [s[..k]] + Fields(if k + 2 <= |s| then s[k + 2..] else "")
  }

  /** Splitting at the first separator: a comma-free head, ", ", then the rest. */
  lemma FieldsCons(x: string, t: string)
    requires forall j :: 0 <= j < |x| ==> x[j] != ','
    ensures Fields(x + ", " + t) == [x] + Fields(t)
  {
    var s := x + ", " + t;
    assert s[|x|] == ',';
    assert FirstComma(s) == |x|;
    assert s[..|x|] == x;
    assert s[|x| + 2..] == t;
  }

  /**
   * When no formatted number contains a comma, splitting a written list at its
   * separators gives back the formatted numbers, one per coefficient.
   */
  lemma {:induction false} FieldsOfJoin(items: seq<string>)
    requires |items| >= 1
    requires forall i, j :: 0 <= i < |items| && 0 <= j < |items[i]| ==> items[i][j] != ','
    ensures Fields(Join(items)) == items
  {
    if |items| == 1 {
      assert FirstComma(items[0]) == |items[0]|;
    } else {
      JoinCons(items);
      FieldsCons(items[0], Join(items[1..]));
      FieldsOfJoin(items[1..]);
      assert items == [items[0]] + items[1..];
    }
  }

  /** Each written list holds the formatted components, one per coefficient, in order. */
  lemma WrittenListReadsBack<P>(h: seq<P>, component: P -> real, number: real -> string)
    requires |h| >= 1
    requires forall v: real, j :: 0 <= j < |number(v)| ==> number(v)[j] != ','
    ensures Fields(Join(Formatted(h, component, number))) == Formatted(h, component, number)
  {
    var items := Formatted(h, component, number);
    forall i, j | 0 <= i < |items| && 0 <= j < |items[i]|
      ensures items[i][j] != ','
    {
      var v := component(h[i]);
      assert items[i] == number(v);
      assert number(v)[j] != ',';
    }
    FieldsOfJoin(items);
  }
}
