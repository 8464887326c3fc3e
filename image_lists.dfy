/**
 * The list-file generators: each script lists the image directory of one
 * split ("train", "test" or "val"), keeps the names that are neither
 * ".txt" nor ".py" files, prefixes them with "data/images/<split>/" and
 * writes them to "<split>.txt", one per line, each line ended by "\n".
 *
 * The three scripts differ only in the split name, so the model is written
 * once, parameterised by the split. The directory listing is an input
 * sequence and the written file is a returned string.
 */
module ImageLists {

  /** Python's str.endswith for a single suffix. */
  predicate EndsWith(s: string, suffix: string)
  {
    |suffix| <= |s| && s[|s| - |suffix|..] == suffix
  }

  /** The filter of the listing loop: neither a ".txt" nor a ".py" file. */
  predicate IsImageName(name: string)
  {
    !EndsWith(name, ".txt") && !EndsWith(name, ".py")
  }

  function EntryPrefix(split: string): string
  {
    "data/images/" + split + "/"
  }

  /** The list entry written for one kept file name. */
  function Entry(split: string, name: string): (e: string)
    ensures |e| == |EntryPrefix(split)| + |name|
    ensures e[..|EntryPrefix(split)|] == EntryPrefix(split)
    ensures e[|EntryPrefix(split)|..] == name
  {
    EntryPrefix(split) + name
  }

  lemma EntryInjective(split: string, a: string, b: string)
    ensures Entry(split, a) == Entry(split, b) <==> a == b
  {
    if Entry(split, a) == Entry(split, b) {
      var n := |EntryPrefix(split)|;
      assert a == Entry(split, a)[n..];
      assert b == Entry(split, b)[n..];
    }
  }

  /** The entries the listing loop collects, in listing order. */
  function ImageEntries(split: string, listing: seq<string>): (r: seq<string>)
    ensures |r| <= |listing|
  {
    if |listing| == 0 then []
    else
      var rest := ImageEntries(split, listing[..|listing| - 1]);
      var name := listing[|listing| - 1];
      if IsImageName(name) then rest + [Entry(split, name)] else rest
  }

  /** The positions in the listing of the names the loop keeps. */
  function ImageIndices(listing: seq<string>): (r: seq<nat>)
    ensures |r| <= |listing|
    ensures forall k :: 0 <= k < |r| ==> r[k] < |listing|
  {
    if |listing| == 0 then []
    else
      var rest := ImageIndices(listing[..|listing| - 1]);
      if IsImageName(listing[|listing| - 1]) then rest + [|listing| - 1] else rest
  }

  /**
   * Selection in order, first part: the k-th entry is the prefixed name at
   * the k-th kept position, and that name passes the filter.
   */
  lemma {:induction false} ImageEntriesAtIndices(split: string, listing: seq<string>)
    ensures |ImageEntries(split, listing)| == |ImageIndices(listing)|
    ensures forall k :: 0 <= k < |ImageIndices(listing)| ==>
      IsImageName(listing[ImageIndices(listing)[k]]) &&
      ImageEntries(split, listing)[k] == Entry(split, listing[ImageIndices(listing)[k]])
  {
    hide IsImageName, Entry;
    if |listing| > 0 {
      var init := listing[..|listing| - 1];
      ImageEntriesAtIndices(split, init);
      var entries, indices := ImageEntries(split, listing), ImageIndices(listing);
      var entries0, indices0 := ImageEntries(split, init), ImageIndices(init);
      forall k | 0 <= k < |indices|
        ensures IsImageName(listing[indices[k]])
        ensures entries[k] == Entry(split, listing[indices[k]])
      {
        if k < |indices0| {
          assert indices[k] == indices0[k] && entries[k] == entries0[k];
          assert init[indices0[k]] == listing[indices0[k]];
        }
      }
    }
  }

  /** Selection in order, second part: the kept positions strictly increase. */
  lemma {:induction false} ImageIndicesIncreasing(listing: seq<string>)
    ensures forall k, l :: 0 <= k < l < |ImageIndices(listing)| ==>
      ImageIndices(listing)[k] < ImageIndices(listing)[l]
  {
    if |listing| > 0 {
      ImageIndicesIncreasing(listing[..|listing| - 1]);
    }
  }

  /** Selection in order, third part: every name passing the filter is kept. */
  lemma {:induction false} ImageIndicesComplete(listing: seq<string>)
    ensures forall j :: 0 <= j < |listing| && IsImageName(listing[j]) ==>
      j in ImageIndices(listing)
  {
    if |listing| > 0 {
      var init := listing[..|listing| - 1];
      ImageIndicesComplete(init);
      assert forall j :: 0 <= j < |init| ==> init[j] == listing[j];
    }
  }

  /** No entry holds a newline when neither the split nor any listed name does. */
  lemma {:induction false} ImageEntriesNewlineFree(split: string, listing: seq<string>)
    requires NewlineFree(split)
    requires forall k :: 0 <= k < |listing| ==> NewlineFree(listing[k])
    ensures forall k :: 0 <= k < |ImageEntries(split, listing)| ==>
      NewlineFree(ImageEntries(split, listing)[k])
  {
    if |listing| > 0 {
      var init := listing[..|listing| - 1];
      ImageEntriesNewlineFree(split, init);
      var name := listing[|listing| - 1];
      assert NewlineFree(name);
      assert NewlineFree(Entry(split, name));
    }
  }

  /** Collecting distributes over concatenation of listings. */
  lemma {:induction false} ImageEntriesConcat(split: string, a: seq<string>, b: seq<string>)
    ensures ImageEntries(split, a + b) == ImageEntries(split, a) + ImageEntries(split, b)
  {
    if |b| > 0 {
      var ab := a + b;
      assert ab[..|ab| - 1] == a + b[..|b| - 1];
      assert ab[|ab| - 1] == b[|b| - 1];
      ImageEntriesConcat(split, a, b[..|b| - 1]);
    } else {
      assert a + b == a;
    }
  }

  /**
   * Each occurrence of a qualifying name yields exactly one entry, and a
   * name that fails the filter yields none.
   */
  lemma {:induction false} ImageEntriesCount(split: string, listing: seq<string>, name: string)
    ensures multiset(ImageEntries(split, listing))[Entry(split, name)] ==
      (if IsImageName(name) then multiset(listing)[name] else 0)
  {
    if |listing| > 0 {
      var init := listing[..|listing| - 1];
      var last := listing[|listing| - 1];
      assert listing == init + [last];
      ImageEntriesCount(split, init, name);
      EntryInjective(split, name, last);
    }
  }

  /** An entry is written exactly when its name is listed and passes the filter. */
  lemma ImageEntriesMembership(split: string, listing: seq<string>, name: string)
    ensures Entry(split, name) in ImageEntries(split, listing) <==>
      name in listing && IsImageName(name)
  {
    ImageEntriesCount(split, listing, name);
  }

  /** The text of the output file: each entry followed by a newline. */
  function Serialize(lines: seq<string>): (text: string)
  {
    if |lines| == 0 then ""
    else Serialize(lines[..|lines| - 1]) + lines[|lines| - 1] + "\n"
  }

  lemma {:induction false} SerializeConcat(a: seq<string>, b: seq<string>)
    ensures Serialize(a + b) == Serialize(a) + Serialize(b)
  {
    if |b| > 0 {
      var ab := a + b;
      assert ab[..|ab| - 1] == a + b[..|b| - 1];
      assert ab[|ab| - 1] == b[|b| - 1];
      SerializeConcat(a, b[..|b| - 1]);
    } else {
      assert a + b == a;
    }
  }

  lemma SerializeCons(line: string, rest: seq<string>)
    ensures Serialize([line] + rest) == line + "\n" + Serialize(rest)
  {
    SerializeConcat([line], rest);
    assert [line][..0] == [];
  }

  predicate NewlineFree(s: string)
  {
    '\n' !in s
  }

  /** Index of the first newline in text, or |text| when there is none. */
  function FirstNewline(text: string): (k: nat)
    ensures k <= |text|
    ensures forall i :: 0 <= i < k ==> text[i] != '\n'
    ensures k < |text| ==> text[k] == '\n'
  {
    if |text| == 0 || text[0] == '\n' then 0 else 1 + FirstNewline(text[1..])
  }

  /** Reads a text back as lines, each ended by a newline or by the end of the text. */
  function SplitLines(text: string): seq<string>
    decreases |text|
  {
    if |text| == 0 then []
    else
      var k := FirstNewline(text);
      if k == |text| then [text] else [text[..k]] + SplitLines(text[k + 1..])
  }

  /** Reading the written file back line by line gives the entries again. */
  lemma {:induction false} SplitLinesSerialize(lines: seq<string>)
    requires forall k :: 0 <= k < |lines| ==> NewlineFree(lines[k])
    ensures SplitLines(Serialize(lines)) == lines
  {
    if |lines| > 0 {
      var line := lines[0];
      var rest := lines[1..];
      assert lines == [line] + rest;
      SerializeCons(line, rest);
      var text := line + "\n" + Serialize(rest);
      assert text[|line|] == '\n';
      assert forall i :: 0 <= i < |line| ==> text[i] == line[i];
      assert FirstNewline(text) == |line|;
      assert text[..|line|] == line;
      assert text[|line| + 1..] == Serialize(rest);
      SplitLinesSerialize(rest);
    }
  }

  /** The file holds one newline per entry, so as many lines as entries. */
  lemma {:induction false} SerializeNewlines(lines: seq<string>)
    requires forall k :: 0 <= k < |lines| ==> NewlineFree(lines[k])
    ensures multiset(Serialize(lines))['\n'] == |lines|
    ensures |lines| > 0 ==> EndsWith(Serialize(lines), "\n")
  {
    if |lines| > 0 {
      var init := lines[..|lines| - 1];
      SerializeNewlines(init);
      assert Serialize(lines) == Serialize(init) + lines[|lines| - 1] + "\n";
      assert multiset(lines[|lines| - 1])['\n'] == 0;
    }
  }

  /** The listing loop of the generator scripts. */
  method CollectImageFiles(split: string, listing: seq<string>) returns (imageFiles: seq<string>)
    ensures imageFiles == ImageEntries(split, listing)
  {
    hide EndsWith;
    imageFiles := [];
    for i := 0 to |listing|
      invariant imageFiles == ImageEntries(split, listing[..i])
    {
      var filename := listing[i];
      var entry := "data/images/" + split + "/" + filename;
      assert entry == Entry(split, filename);
      assert listing[..i + 1][..i] == listing[..i] && listing[..i + 1][i] == filename;
      if !EndsWith(filename, ".txt") && !EndsWith(filename, ".py") {
        imageFiles := imageFiles + [entry];
      }
    }
    assert listing[..|listing|] == listing;
  }

  /** The writing loop: each entry, then a newline. */
  method WriteLines(imageFiles: seq<string>) returns (contents: string)
    ensures contents == Serialize(imageFiles)
  {
    contents := "";
    for i := 0 to |imageFiles|
      invariant contents == Serialize(imageFiles[..i])
    {
      assert imageFiles[..i + 1][..i] == imageFiles[..i];
      contents := contents + imageFiles[i];
      contents := contents + "\n";
    }
    assert imageFiles[..|imageFiles|] == imageFiles;
  }

  /**
   * One generator script for the given split: the path of the list file,
   * relative to the directory the script starts in, and its contents.
   */
  method GenerateListFile(split: string, listing: seq<string>) returns (path: string, contents: string)
    ensures path == "data/" + split + ".txt"
    ensures contents == Serialize(ImageEntries(split, listing))
  {
    var imageFiles := CollectImageFiles(split, listing);
    path := "data/" + split + ".txt";
    contents := WriteLines(imageFiles);
  }

  method GenerateTrain(listing: seq<string>) returns (path: string, contents: string)
    ensures path == "data/train.txt"
    ensures contents == Serialize(ImageEntries("train", listing))
  {
    path, contents := GenerateListFile("train", listing);
  }

  method GenerateTest(listing: seq<string>) returns (path: string, contents: string)
    ensures path == "data/test.txt"
    ensures contents == Serialize(ImageEntries("test", listing))
  {
    path, contents := GenerateListFile("test", listing);
  }

  method GenerateVal(listing: seq<string>) returns (path: string, contents: string)
    ensures path == "data/val.txt"
    ensures contents == Serialize(ImageEntries("val", listing))
  {
    path, contents := GenerateListFile("val", listing);
  }

  /**
   * With names free of newlines, the file written for a split reads back as
   * exactly the kept entries, one line per kept name.
   */
  lemma ListFileReadsBack(split: string, listing: seq<string>)
    requires NewlineFree(split)
    requires forall k :: 0 <= k < |listing| ==> NewlineFree(listing[k])
    ensures SplitLines(Serialize(ImageEntries(split, listing))) == ImageEntries(split, listing)
    ensures multiset(Serialize(ImageEntries(split, listing)))['\n'] == |ImageIndices(listing)|
  {
    ImageEntriesNewlineFree(split, listing);
    ImageEntriesAtIndices(split, listing);
    SplitLinesSerialize(ImageEntries(split, listing));
    SerializeNewlines(ImageEntries(split, listing));
  }

  /** A listing holding two images, a label file and the script itself. */
  lemma TrainSampleEntries()
    ensures ImageEntries("train", ["a.jpg", "a.txt", "generate_train.py", "b.png"]) ==
      [Entry("train", "a.jpg"), Entry("train", "b.png")]
  {
    hide IsImageName, Entry;
    SampleNames();
    var l1 := ["a.jpg"];
    var l2 := l1 + ["a.txt"];
    var l3 := l2 + ["generate_train.py"];
    var l4 := l3 + ["b.png"];
    assert l1[..0] == [];
    assert ImageEntries("train", l1) == [Entry("train", "a.jpg")];
    assert l2[..1] == l1 && l2[1] == "a.txt";
    assert ImageEntries("train", l2) == [Entry("train", "a.jpg")];
    assert l3[..2] == l2 && l3[2] == "generate_train.py";
    assert ImageEntries("train", l3) == [Entry("train", "a.jpg")];
    assert l4[..3] == l3 && l4[3] == "b.png";
    assert ImageEntries("train", l4) == [Entry("train", "a.jpg"), Entry("train", "b.png")];
    assert l4 == ["a.jpg", "a.txt", "generate_train.py", "b.png"];
  }

  /** The text written for those two entries. */
  lemma TrainSampleText()
    ensures Serialize(["data/images/train/a.jpg", "data/images/train/b.png"]) ==
      "data/images/train/a.jpg" + "\n" + "data/images/train/b.png" + "\n"
  {
    var lines := ["data/images/train/a.jpg", "data/images/train/b.png"];
    assert lines[..1] == ["data/images/train/a.jpg"] && lines[..1][..0] == [];
  }

  lemma SampleNames()
    ensures !IsImageName("a.txt") && !IsImageName("generate_train.py")
    ensures IsImageName("a.jpg") && IsImageName("b.png")
  {
    assert "a.txt"[1..] == ".txt";
    assert "generate_train.py"[14..] == ".py";
    assert "a.jpg"[1..] != ".txt" && "a.jpg"[2..] != ".py";
    assert "b.png"[1..] != ".txt" && "b.png"[2..] != ".py";
  }
}
