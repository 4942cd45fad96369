/** Conversion of Pascal VOC annotations (pixel corner boxes) into YOLO label
    files (class index plus centre and size, normalised by the image size), as
    `src/my_converter.py` does it. XML parsing, image-size reads and directory
    listings are inputs; float division is exact real division; `str(float)`
    is a formatting function supplied by the caller. */
module Converter {
  import opened Wrappers
  import opened Seqs
  import opened Paths

  /** A pixel count of an image: PNG images are at least one pixel wide and high. */
  type Dim = n: int | n > 0 witness 1

  datatype ImageSize = ImageSize(w: Dim, h: Dim)

  /** A box in pixel corners, as real numbers. */
  datatype Corners = Corners(xmin: real, ymin: real, xmax: real, ymax: real)

  /** A box as centre and size, each divided by the image's width or height. */
  datatype YoloBox = YoloBox(xCenter: real, yCenter: real, width: real, height: real)

  /** One `<object>` of a VOC document: its class name and the integer corners of its `<bndbox>`. */
  datatype VocObject = VocObject(name: string, xmin: int, ymin: int, xmax: int, ymax: int)

  /** A parsed VOC document and the path of its XML file. */
  datatype VocDocument = VocDocument(path: string, objects: seq<VocObject>)

  /** One label line before formatting: a class index and a normalised box. */
  datatype LabelLine = LabelLine(classId: nat, box: YoloBox)

  /** What converting one XML file does. */
  datatype XmlOutcome =
    | ImageMissing(imageName: string)       // skipped with a warning, nothing written
    | NoLabels                              // every object was dropped, nothing written
    | LabelFile(path: string, text: string) // `text` handed to `f.write` on `path`, a file opened in text mode

  /** `xml_to_yolo_bbox`: VOC corners to YOLO centre/size in image-relative units. */
  function ToYolo(c: Corners, w: Dim, h: Dim): YoloBox
  {
    var W, H := w as real, h as real;
    YoloBox(((c.xmax + c.xmin) / 2.0) / W,
            ((c.ymax + c.ymin) / 2.0) / H,
            (c.xmax - c.xmin) / W,
            (c.ymax - c.ymin) / H)
  }

  /** The YOLO box scaled back by the image size gives twice the centre (the sum
      of the corners) and the extent (their difference); a box has a non-negative
      width or height exactly when its corners are in order. */
  lemma ToYoloMeaning(c: Corners, w: Dim, h: Dim)
    ensures var r := ToYolo(c, w, h);
      && 2.0 * (w as real) * r.xCenter == c.xmin + c.xmax
      && 2.0 * (h as real) * r.yCenter == c.ymin + c.ymax
      && (w as real) * r.width == c.xmax - c.xmin
      && (h as real) * r.height == c.ymax - c.ymin
      && (r.width >= 0.0 <==> c.xmax >= c.xmin)
      && (r.height >= 0.0 <==> c.ymax >= c.ymin)
  {
  }

  /** The inverse conversion, from a YOLO box back to pixel corners. */
  function FromYolo(y: YoloBox, w: Dim, h: Dim): Corners
  {
    var W, H := w as real, h as real;
    Corners((y.xCenter - y.width / 2.0) * W,
            (y.yCenter - y.height / 2.0) * H,
            (y.xCenter + y.width / 2.0) * W,
            (y.yCenter + y.height / 2.0) * H)
  }

  /** Round trip: the pixel corners are recovered exactly from the YOLO box. */
  lemma CornersRoundTrip(c: Corners, w: Dim, h: Dim)
    ensures FromYolo(ToYolo(c, w, h), w, h) == c
  {
    var y := ToYolo(c, w, h);
    var W, H := w as real, h as real;
    assert y.xCenter - y.width / 2.0 == c.xmin / W;
    assert y.xCenter + y.width / 2.0 == c.xmax / W;
    assert y.yCenter - y.height / 2.0 == c.ymin / H;
    assert y.yCenter + y.height / 2.0 == c.ymax / H;
  }

  /** Round trip the other way: every YOLO box is the conversion of its own corners. */
  lemma YoloRoundTrip(y: YoloBox, w: Dim, h: Dim)
    ensures ToYolo(FromYolo(y, w, h), w, h) == y
  {
    var c := FromYolo(y, w, h);
    var W, H := w as real, h as real;
    assert c.xmax + c.xmin == 2.0 * y.xCenter * W;
    assert c.xmax - c.xmin == y.width * W;
    assert c.ymax + c.ymin == 2.0 * y.yCenter * H;
    assert c.ymax - c.ymin == y.height * H;
  }

  /** A box that lies inside the image converts to four values in [0, 1]. */
  lemma YoloInUnitRange(c: Corners, w: Dim, h: Dim)
    requires 0.0 <= c.xmin <= c.xmax <= w as real
    requires 0.0 <= c.ymin <= c.ymax <= h as real
    ensures var y := ToYolo(c, w, h);
      && 0.0 <= y.xCenter <= 1.0 && 0.0 <= y.yCenter <= 1.0
      && 0.0 <= y.width <= 1.0 && 0.0 <= y.height <= 1.0
  {
    AxisInUnitRange(c.xmin, c.xmax, w as real);
    AxisInUnitRange(c.ymin, c.ymax, h as real);
  }

  /** One axis of `YoloInUnitRange`: the normalised centre and extent of an interval inside [0, size]. */
  lemma AxisInUnitRange(lo: real, hi: real, size: real)
    requires 0.0 <= lo <= hi <= size && size > 0.0
    ensures 0.0 <= ((hi + lo) / 2.0) / size <= 1.0
    ensures 0.0 <= (hi - lo) / size <= 1.0
  {
    assert (hi + lo) / 2.0 <= size;
    assert ((hi + lo) / 2.0) / size <= size / size;
    assert (hi - lo) / size <= size / size;
  }

  /** The corners of a VOC object, read as numbers. */
  function CornersOf(o: VocObject): Corners
  {
    Corners(o.xmin as real, o.ymin as real, o.xmax as real, o.ymax as real)
  }

  /** The per-object step: an object whose class is not listed is dropped; a kept
      object is labelled with the first index of its class name in `classes`. */
  function ConvertObject(o: VocObject, classes: seq<string>, size: ImageSize): (r: Option<LabelLine>)
    ensures r.None? <==> o.name !in classes
    ensures r.Some? ==> r.value.classId < |classes| && classes[r.value.classId] == o.name
    ensures r.Some? ==> o.name !in classes[..r.value.classId]
    ensures r.Some? ==> r.value.box == ToYolo(CornersOf(o), size.w, size.h)
  {
    match FirstIndex(classes, o.name)
    case None => None
    case Some(i) => Some(LabelLine(i, ToYolo(CornersOf(o), size.w, size.h)))
  }

  /** The objects whose class is in the list, in document order. */
  function Kept(objects: seq<VocObject>, classes: seq<string>): seq<VocObject>
  {
    Filter(objects, (o: VocObject) => o.name in classes)
  }

  /** Extending the scanned prefix by one object keeps that object exactly when its class is listed. */
  lemma KeptStep(objects: seq<VocObject>, i: nat, classes: seq<string>)
    requires i < |objects|
    ensures Kept(objects[..i + 1], classes) ==
      Kept(objects[..i], classes) + (if objects[i].name in classes then [objects[i]] else [])
  {
    assert objects[..i + 1][..i] == objects[..i];
  }

  /** No object is kept exactly when no object's class is listed. */
  lemma KeptEmpty(objects: seq<VocObject>, classes: seq<string>)
    ensures |Kept(objects, classes)| == 0 <==> forall k :: 0 <= k < |objects| ==> objects[k].name !in classes
  {
    var kept := Kept(objects, classes);
    if |kept| > 0 {
      assert kept[0] in objects;
    }
  }

  /** The object loop of `convert_annotations`: one line per kept object, in document order. */
  method ConvertObjects(objects: seq<VocObject>, classes: seq<string>, size: ImageSize)
    returns (lines: seq<LabelLine>)
    ensures |lines| == |Kept(objects, classes)|
    ensures forall i :: 0 <= i < |lines| ==> ConvertObject(Kept(objects, classes)[i], classes, size) == Some(lines[i])
    ensures forall i :: 0 <= i < |lines| ==> lines[i].classId < |classes|
    ensures |lines| == 0 <==> forall k :: 0 <= k < |objects| ==> objects[k].name !in classes
  {
    lines := [];
    var i := 0;
    while i < |objects|
      invariant 0 <= i <= |objects|
      invariant |lines| == |Kept(objects[..i], classes)|
      invariant forall j :: 0 <= j < |lines| ==> ConvertObject(Kept(objects[..i], classes)[j], classes, size) == Some(lines[j])
    {
      KeptStep(objects, i, classes);
      var converted := ConvertObject(objects[i], classes, size);
      if converted.Some? {
        lines := lines + [converted.value];
      }
      i := i + 1;
    }
    assert objects[..i] == objects;
    KeptEmpty(objects, classes);
  }

  /** Decimal digits of a natural number, as `str(int)` renders them. */
  function NatToString(n: nat): (r: string)
    ensures |r| > 0
    ensures forall k :: 0 <= k < |r| ==> '0' <= r[k] <= '9'
  {
    var d := [(('0' as int) + n % 10) as char];
    if n < 10 then d else NatToString(n / 10) + d
  }

  /** The number a string of decimal digits denotes. */
  function DigitsValue(s: string): nat
    requires forall k :: 0 <= k < |s| ==> '0' <= s[k] <= '9'
  {
    if |s| == 0 then 0 else 10 * DigitsValue(s[..|s| - 1]) + (s[|s| - 1] as int - '0' as int)
  }

  /** Reading the rendered class index back gives the index. */
  lemma {:induction false} NatToStringRoundTrip(n: nat)
    ensures DigitsValue(NatToString(n)) == n
  {
    var s := NatToString(n);
    if n >= 10 {
      NatToStringRoundTrip(n / 10);
      assert s[..|s| - 1] == NatToString(n / 10);
    }
  }

  /** The five space-separated fields of a label line. */
  function LineFields(line: LabelLine, fmt: real -> string): seq<string>
  {
    [NatToString(line.classId), fmt(line.box.xCenter), fmt(line.box.yCenter),
     fmt(line.box.width), fmt(line.box.height)]
  }

  /** `f"{class_id} {' '.join(str(x) for x in yolo_box)}"`. */
  function FormatLine(line: LabelLine, fmt: real -> string): string
  {
    JoinWith(LineFields(line, fmt), ' ')
  }

  /** `'\n'.join(yolo_annotations)`: lines separated by newlines, none after the last. */
  function LabelText(lines: seq<LabelLine>, fmt: real -> string): string
  {
    JoinWith(seq(|lines|, i requires 0 <= i < |lines| => FormatLine(lines[i], fmt)), '\n')
  }

  /** A float formatter that never produces a blank or a line break, as `str(float)` does not. */
  ghost predicate CleanFormat(fmt: real -> string)
  {
    forall x: real :: ' ' !in fmt(x) && '\n' !in fmt(x)
  }

  /** A written label file parses back: splitting at newlines gives one line per
      kept object, and splitting a line at blanks gives its five fields. */
  lemma LabelTextParses(lines: seq<LabelLine>, fmt: real -> string)
    requires CleanFormat(fmt)
    requires |lines| > 0
    ensures |Split(LabelText(lines, fmt), '\n')| == |lines|
    ensures forall i :: 0 <= i < |lines| ==>
      Split(Split(LabelText(lines, fmt), '\n')[i], ' ') == LineFields(lines[i], fmt)
  {
    var formatted := seq(|lines|, i requires 0 <= i < |lines| => FormatLine(lines[i], fmt));
    forall i | 0 <= i < |lines|
      ensures '\n' !in formatted[i]
      ensures Split(formatted[i], ' ') == LineFields(lines[i], fmt)
    {
      var fields := LineFields(lines[i], fmt);
      forall k | 0 <= k < |fields|
        ensures ' ' !in fields[k] && '\n' !in fields[k]
      {
        if k == 0 {
          assert forall j :: 0 <= j < |fields[0]| ==> '0' <= fields[0][j] <= '9';
        }
      }
      JoinWithAvoids(fields, ' ', '\n');
      SplitJoin(fields, ' ');
    }
    SplitJoin(formatted, '\n');
  }

  /** Per-XML step of `convert_annotations`: pair the XML with `<stem>.png`, skip it
      when that image is not listed, convert the kept objects, and write
      `<stem>.txt` only when at least one object was kept. */
  method ConvertXml(xmlPath: string, imageNames: set<string>, size: ImageSize,
                    objects: seq<VocObject>, classes: seq<string>, outDir: string,
                    fmt: real -> string)
    returns (r: XmlOutcome)
    ensures r.ImageMissing? <==> Stem(Basename(xmlPath)) + ".png" !in imageNames
    ensures r.ImageMissing? ==> r.imageName == Stem(Basename(xmlPath)) + ".png"
    ensures r.LabelFile? <==>
      Stem(Basename(xmlPath)) + ".png" in imageNames &&
      exists k :: 0 <= k < |objects| && objects[k].name in classes
    ensures r.LabelFile? ==> r.path == Join(outDir, Stem(Basename(xmlPath)) + ".txt")
    ensures r.LabelFile? ==> exists lines ::
      |lines| == |Kept(objects, classes)| > 0 && r.text == LabelText(lines, fmt) &&
      forall i :: 0 <= i < |lines| ==> ConvertObject(Kept(objects, classes)[i], classes, size) == Some(lines[i])
  {
    var stem := Stem(Basename(xmlPath));
    var imageName := stem + ".png";
    if imageName !in imageNames {
      return ImageMissing(imageName);
    }
    var lines := ConvertObjects(objects, classes, size);
    if |lines| > 0 {
      r := LabelFile(Join(outDir, stem + ".txt"), LabelText(lines, fmt));
    } else {
      r := NoLabels;
    }
  }

  /** The label file of an XML document is named after the document's stem and ends in `.txt`. */
  lemma LabelFileName(xmlPath: string, outDir: string)
    ensures Basename(Join(outDir, Stem(Basename(xmlPath)) + ".txt")) == Stem(Basename(xmlPath)) + ".txt"
    ensures EndsWith(Join(outDir, Stem(Basename(xmlPath)) + ".txt"), ".txt")
  {
    var stem := Stem(Basename(xmlPath));
    var name := stem + ".txt";
    StemNoSep(Basename(xmlPath));
    assert NoSep(name) by {
      forall k | 0 <= k < |name|
        ensures !IsSep(name[k])
      {
        if k < |stem| {
          assert name[k] == stem[k];
        }
      }
    }
    BasenameOfJoin(outDir, name);
    var p := Join(outDir, name);
    JoinEndsWith(outDir, name);
    assert p[|p| - 4..] == p[|p| - |name|..][|name| - 4..];
    assert name[|name| - 4..] == ".txt";
  }
}
