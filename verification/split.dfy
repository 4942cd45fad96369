/** The train/validation split of `src/split_data.py`: pair every listed `.png`
    image with its `.txt` label, shuffle the pairs, cut the list at
    `int(n * ratio)`, and move each pair into the training or validation
    directories. A pair whose image or image directory is missing is skipped; when
    only its label or label directory is missing, the image still moves. The file system
    is the set of paths that exist; the image-directory listing and the
    shuffle's swaps are inputs. */
module DatasetSplit {
  import opened Wrappers
  import opened Seqs
  import opened Paths

  /** An image path and the path of its label file. */
  datatype Pair = Pair(imagePath: string, labelPath: string)

  /** What moving one pair did. */
  datatype MoveOutcome =
    | BothMoved   // image and label moved
    | ImageOnly   // image moved, then the label or its directory was missing: the image stays moved
    | Skipped     // image or image directory missing: nothing moved

  /** One entry of the move log: the pair, where its files were sent, and what happened. */
  datatype MoveLog = MoveLog(pair: Pair, imageDest: string, labelDest: string, outcome: MoveOutcome)

  /** The whole run: the pairs found, their shuffled order, the two parts, the move log
      and the resulting set of existing paths. */
  datatype SplitRun = SplitRun(pairs: seq<Pair>, shuffled: seq<Pair>, train: seq<Pair>,
                               valid: seq<Pair>, log: seq<MoveLog>, files: set<string>)

  /** The label file an image name asks for: its stem plus `.txt`. */
  function LabelName(imageName: string): string
  {
    Stem(imageName) + ".txt"
  }

  /** A listed name forms a pair when it ends in `.png` and its label file exists. */
  predicate Pairable(labelDir: string, files: set<string>, name: string)
  {
    EndsWith(name, ".png") && Join(labelDir, LabelName(name)) in files
  }

  function PairFor(imageDir: string, labelDir: string, name: string): Pair
  {
    Pair(Join(imageDir, name), Join(labelDir, LabelName(name)))
  }

  /** Step 1 of `split_data`: one pair per pairable name, in listing order. */
  function SelectPairs(imageDir: string, labelDir: string, listing: seq<string>, files: set<string>)
    : (pairs: seq<Pair>)
    ensures |pairs| <= |listing|
  {
    if |listing| == 0 then []
    else
      var init := SelectPairs(imageDir, labelDir, listing[..|listing| - 1], files);
      var name := listing[|listing| - 1];
      if Pairable(labelDir, files, name) then init + [PairFor(imageDir, labelDir, name)] else init
  }

  /** Every selected pair comes from a pairable name of the listing. */
  lemma {:induction false} SelectPairsSound(imageDir: string, labelDir: string, listing: seq<string>,
                                            files: set<string>, i: nat)
    requires i < |SelectPairs(imageDir, labelDir, listing, files)|
    ensures exists k ::
              && 0 <= k < |listing|
              && Pairable(labelDir, files, listing[k])
              && SelectPairs(imageDir, labelDir, listing, files)[i] == PairFor(imageDir, labelDir, listing[k])
    decreases |listing|
  {
    var n := |listing|;
    var prefix := listing[..n - 1];
    var init := SelectPairs(imageDir, labelDir, prefix, files);
    var pairs := SelectPairs(imageDir, labelDir, listing, files);
    if i < |init| {
      SelectPairsSound(imageDir, labelDir, prefix, files, i);
      var k :| 0 <= k < |prefix| && Pairable(labelDir, files, prefix[k]) &&
        init[i] == PairFor(imageDir, labelDir, prefix[k]);
      assert pairs[i] == init[i];
      assert listing[k] == prefix[k];
    } else {
      assert Pairable(labelDir, files, listing[n - 1]) && pairs[i] == PairFor(imageDir, labelDir, listing[n - 1]);
    }
  }

  /** Every pairable name of the listing contributes its pair. */
  lemma {:induction false} SelectPairsComplete(imageDir: string, labelDir: string, listing: seq<string>,
                                               files: set<string>, k: nat)
    requires k < |listing| && Pairable(labelDir, files, listing[k])
    ensures PairFor(imageDir, labelDir, listing[k]) in SelectPairs(imageDir, labelDir, listing, files)
    decreases |listing|
  {
    var n := |listing|;
    var prefix := listing[..n - 1];
    var init := SelectPairs(imageDir, labelDir, prefix, files);
    var pairs := SelectPairs(imageDir, labelDir, listing, files);
    if k < n - 1 {
      assert listing[k] == prefix[k];
      SelectPairsComplete(imageDir, labelDir, prefix, files, k);
      var j :| 0 <= j < |init| && init[j] == PairFor(imageDir, labelDir, listing[k]);
      assert pairs == init || pairs == init + [PairFor(imageDir, labelDir, listing[n - 1])];
      assert pairs[j] == init[j];
    } else {
      assert pairs == init + [PairFor(imageDir, labelDir, listing[k])];
      assert pairs[|pairs| - 1] == PairFor(imageDir, labelDir, listing[k]);
    }
  }

  /** Pairs appear in listing order: the selection over a longer listing extends the selection over its prefix. */
  lemma {:induction false} SelectPairsInListingOrder(imageDir: string, labelDir: string, listing: seq<string>,
                                                     more: seq<string>, files: set<string>)
    ensures SelectPairs(imageDir, labelDir, listing + more, files) ==
      SelectPairs(imageDir, labelDir, listing, files) + SelectPairs(imageDir, labelDir, more, files)
    decreases |more|
  {
    if |more| == 0 {
      assert listing + more == listing;
    } else {
      var more' := more[..|more| - 1];
      assert (listing + more)[..|listing + more| - 1] == listing + more';
      SelectPairsInListingOrder(imageDir, labelDir, listing, more', files);
    }
  }

  /** Python's `int()` on a float: truncation toward zero. */
  function Truncate(x: real): (r: int)
    ensures 0.0 <= x ==> 0 <= r && r as real <= x < r as real + 1.0
    ensures x < 0.0 ==> r <= 0 && r as real - 1.0 < x <= r as real
  {
    if x >= 0.0 then x.Floor else -((-x).Floor)
  }

  /** How a Python slice bound `k` on a list of length `n` is normalised:
      negative bounds count from the end, and both ends are clamped. */
  function SliceBound(k: int, n: nat): (r: nat)
    ensures r <= n
    ensures 0 <= k <= n ==> r == k
  {
    if k < 0 then (if n + k < 0 then 0 else n + k) else if k > n then n else k
  }

  /** Step 3: `split_point = int(len(all_pairs) * split_ratio)`. */
  function SplitPoint(n: nat, ratio: real): int
  {
    Truncate((n as real) * ratio)
  }

  /** For a ratio in [0, 1], the split point is the floor of `n * ratio` and lies in [0, n]. */
  lemma SplitPointInRange(n: nat, ratio: real)
    ensures 0.0 <= ratio <= 1.0 ==> 0 <= SplitPoint(n, ratio) <= n
    ensures 0.0 <= ratio ==> SplitPoint(n, ratio) == ((n as real) * ratio).Floor
  {
    var x := (n as real) * ratio;
    if 0.0 <= ratio {
      assert 0.0 <= x;
      assert Truncate(x) == x.Floor;
      if ratio <= 1.0 {
        assert x <= n as real by {
          assert (n as real) * (1.0 - ratio) >= 0.0;
        }
        assert Truncate(x) as real <= x;
      }
    }
  }

  /** Step 4: the training prefix `all_pairs[:split_point]` and the validation suffix `all_pairs[split_point:]`. */
  function Partition(shuffled: seq<Pair>, ratio: real): (r: (seq<Pair>, seq<Pair>))
    ensures r.0 + r.1 == shuffled
    ensures |r.0| + |r.1| == |shuffled|
    ensures 0.0 <= ratio <= 1.0 ==> |r.0| == SplitPoint(|shuffled|, ratio)
  {
    var n := |shuffled|;
    var cut := SliceBound(SplitPoint(n, ratio), n);
    SplitPointInRange(n, ratio);
    (shuffled[..cut], shuffled[cut..])
  }

  /** The two parts share no position: every index of the shuffled list is in exactly one of them. */
  lemma PartitionPositionallyDisjoint(shuffled: seq<Pair>, ratio: real, i: nat)
    requires i < |shuffled|
    ensures var (train, valid) := Partition(shuffled, ratio);
      (i < |train| && shuffled[i] == train[i]) != (|train| <= i && shuffled[i] == valid[i - |train|])
  {
    var (train, valid) := Partition(shuffled, ratio);
    if i < |train| {
      assert shuffled[i] == (train + valid)[i];
    } else {
      assert shuffled[i] == (train + valid)[i];
    }
  }

  /** `shutil.move(src, dst)` for a destination inside directory `dstDir`: it raises
      `FileNotFoundError` when the source is missing or the destination's directory
      does not exist; otherwise the source is gone and the destination exists.
      `dirs` is the set of existing directories, which moving files does not change. */
  function MoveFile(files: set<string>, dirs: set<string>, src: string, dstDir: string, dst: string)
    : (r: Option<set<string>>)
    ensures r.None? <==> src !in files || dstDir !in dirs
    ensures r.Some? ==> dst in r.value && (src != dst ==> src !in r.value)
    ensures r.Some? ==> forall p :: p != src && p != dst ==> (p in r.value <==> p in files)
  {
    if src in files && dstDir in dirs then Some(files - {src} + {dst}) else None
  }

  /** Where a file from `src` goes when moved into `dir`: `os.path.join(dir, os.path.basename(src))`. */
  function DestOf(dir: string, src: string): string
  {
    Join(dir, Basename(src))
  }

  /** A moved file keeps its name: the destination's basename is the source's. */
  lemma DestKeepsName(dir: string, src: string)
    ensures Basename(DestOf(dir, src)) == Basename(src)
  {
    BasenameOfJoin(dir, Basename(src));
  }

  /** One iteration of `move_file_pairs` with the destinations already built: move
      the image, then the label; a `FileNotFoundError` ends the iteration, leaving
      whatever was already moved where it is. */
  function MovePairTo(files: set<string>, dirs: set<string>, pair: Pair,
                      imageDir: string, imageDest: string, labelDir: string, labelDest: string)
    : (r: (set<string>, MoveLog))
    ensures r.1 == MoveLog(pair, imageDest, labelDest, r.1.outcome)
    ensures r.1.outcome == Skipped <==> pair.imagePath !in files || imageDir !in dirs
    ensures r.1.outcome == Skipped ==> r.0 == files
    ensures r.1.outcome != Skipped && pair.labelPath != pair.imagePath && pair.labelPath != imageDest ==>
      (r.1.outcome == BothMoved <==> pair.labelPath in files && labelDir in dirs)
    ensures r.1.outcome == ImageOnly ==>
      imageDest in r.0 && (pair.imagePath != imageDest ==> pair.imagePath !in r.0)
    ensures r.1.outcome == BothMoved ==>
      && labelDest in r.0
      && (imageDest != pair.labelPath ==> imageDest in r.0)
      && (pair.labelPath != labelDest ==> pair.labelPath !in r.0)
      && (pair.imagePath != imageDest && pair.imagePath != labelDest ==> pair.imagePath !in r.0)
    ensures forall p :: p in files && p != pair.imagePath && p != pair.labelPath ==> p in r.0
    ensures forall p :: p !in files && p != imageDest && p != labelDest ==> p !in r.0
  {
    match MoveFile(files, dirs, pair.imagePath, imageDir, imageDest)
    case None => (files, MoveLog(pair, imageDest, labelDest, Skipped))
    case Some(afterImage) =>
      match MoveFile(afterImage, dirs, pair.labelPath, labelDir, labelDest)
      case None => (afterImage, MoveLog(pair, imageDest, labelDest, ImageOnly))
      case Some(afterLabel) => (afterLabel, MoveLog(pair, imageDest, labelDest, BothMoved))
  }

  /** One iteration of `move_file_pairs`: the destinations are the source base names
      joined onto the two directories. */
  function MovePair(files: set<string>, dirs: set<string>, pair: Pair, imageDir: string, labelDir: string)
    : (r: (set<string>, MoveLog))
    ensures r.1.pair == pair
    ensures r.1.imageDest == DestOf(imageDir, pair.imagePath)
    ensures r.1.labelDest == DestOf(labelDir, pair.labelPath)
    ensures r.1.outcome == Skipped <==> pair.imagePath !in files || imageDir !in dirs
    ensures r.1.outcome == Skipped ==> r.0 == files
    ensures r.1.outcome != Skipped && pair.labelPath != pair.imagePath && pair.labelPath != r.1.imageDest ==>
      (r.1.outcome == BothMoved <==> pair.labelPath in files && labelDir in dirs)
    ensures r.1.outcome == ImageOnly ==>
      r.1.imageDest in r.0 && (pair.imagePath != r.1.imageDest ==> pair.imagePath !in r.0)
    ensures r.1.outcome == BothMoved ==>
      && r.1.labelDest in r.0
      && (r.1.imageDest != pair.labelPath ==> r.1.imageDest in r.0)
      && (pair.labelPath != r.1.labelDest ==> pair.labelPath !in r.0)
      && (pair.imagePath != r.1.imageDest && pair.imagePath != r.1.labelDest ==> pair.imagePath !in r.0)
    ensures forall p :: p in files && p != pair.imagePath && p != pair.labelPath ==> p in r.0
    ensures forall p :: p !in files && p != r.1.imageDest && p != r.1.labelDest ==> p !in r.0
  {
    MovePairTo(files, dirs, pair, imageDir, DestOf(imageDir, pair.imagePath), labelDir, DestOf(labelDir, pair.labelPath))
  }

  /** The log has one entry per pair, in the pairs' order, with the destinations in the given directories. */
  predicate LogFollows(log: seq<MoveLog>, pairs: seq<Pair>, imageDir: string, labelDir: string)
  {
    && |log| == |pairs|
    && forall i :: 0 <= i < |pairs| ==>
         && log[i].pair == pairs[i]
         && log[i].imageDest == DestOf(imageDir, pairs[i].imagePath)
         && log[i].labelDest == DestOf(labelDir, pairs[i].labelPath)
  }

  /** `move_file_pairs`: every pair is attempted once, in order, whatever happened to the ones before. */
  function MovePairs(files: set<string>, dirs: set<string>, pairs: seq<Pair>, imageDir: string, labelDir: string)
    : (r: (set<string>, seq<MoveLog>))
    ensures |r.1| == |pairs|
    decreases |pairs|
  {
    if |pairs| == 0 then (files, [])
    else
      var first := MovePair(files, dirs, pairs[0], imageDir, labelDir);
      var rest := MovePairs(first.0, dirs, pairs[1..], imageDir, labelDir);
      (rest.0, [first.1] + rest.1)
  }

  /** The log has one entry per pair, in order, each naming the pair and its destinations. */
  lemma {:induction false} MovePairsLog(files: set<string>, dirs: set<string>, pairs: seq<Pair>,
                                        imageDir: string, labelDir: string)
    ensures LogFollows(MovePairs(files, dirs, pairs, imageDir, labelDir).1, pairs, imageDir, labelDir)
    decreases |pairs|
  {
    if |pairs| > 0 {
      var first := MovePair(files, dirs, pairs[0], imageDir, labelDir);
      var log := MovePairs(files, dirs, pairs, imageDir, labelDir).1;
      var rest := MovePairs(first.0, dirs, pairs[1..], imageDir, labelDir).1;
      MovePairsLog(first.0, dirs, pairs[1..], imageDir, labelDir);
      assert log == [first.1] + rest;
      forall i | 0 <= i < |pairs|
        ensures && log[i].pair == pairs[i]
                && log[i].imageDest == DestOf(imageDir, pairs[i].imagePath)
                && log[i].labelDest == DestOf(labelDir, pairs[i].labelPath)
      {
        if i > 0 {
          assert log[i] == rest[i - 1] && pairs[i] == pairs[1..][i - 1];
        }
      }
    }
  }

  /** The outcome a pair gets when nothing moved earlier can affect its files: skipped
      when the image or its destination directory is missing, image only when the
      label or its destination directory is missing, otherwise both moved. */
  function OutcomeFromStart(files: set<string>, dirs: set<string>, pair: Pair, imageDir: string, labelDir: string)
    : MoveOutcome
  {
    if pair.imagePath !in files || imageDir !in dirs then Skipped
    else if pair.labelPath !in files || labelDir !in dirs then ImageOnly
    else BothMoved
  }

  /** No two source paths coincide and no destination is a source path. */
  predicate NoAliasing(pairs: seq<Pair>, imageDir: string, labelDir: string)
  {
    && (forall i, j :: 0 <= i < |pairs| && 0 <= j < |pairs| ==> pairs[i].imagePath != pairs[j].labelPath)
    && (forall i, j :: 0 <= i < j < |pairs| ==> pairs[i].imagePath != pairs[j].imagePath && pairs[i].labelPath != pairs[j].labelPath)
    && (forall i, j :: 0 <= i < |pairs| && 0 <= j < |pairs| ==>
          DestOf(imageDir, pairs[i].imagePath) != pairs[j].imagePath && DestOf(imageDir, pairs[i].imagePath) != pairs[j].labelPath &&
          DestOf(labelDir, pairs[i].labelPath) != pairs[j].imagePath && DestOf(labelDir, pairs[i].labelPath) != pairs[j].labelPath)
  }

  /** Without aliasing, moving one pair leaves another pair's source files alone. */
  lemma NotTouchedByEarlierPair(pairs: seq<Pair>, imageDir: string, labelDir: string, j: nat, i: nat)
    requires NoAliasing(pairs, imageDir, labelDir)
    requires j < i < |pairs|
    ensures var src := pairs[i].imagePath;
      src != pairs[j].imagePath && src != pairs[j].labelPath &&
      src != DestOf(imageDir, pairs[j].imagePath) && src != DestOf(labelDir, pairs[j].labelPath)
    ensures var src := pairs[i].labelPath;
      src != pairs[j].imagePath && src != pairs[j].labelPath &&
      src != DestOf(imageDir, pairs[j].imagePath) && src != DestOf(labelDir, pairs[j].labelPath)
  {
  }

  /** Without aliasing, each pair's outcome depends only on which of its own files and
      destination directories existed at the start. */
  lemma {:induction false} MovePairsOutcomes(files: set<string>, dirs: set<string>, pairs: seq<Pair>,
                                             imageDir: string, labelDir: string)
    requires NoAliasing(pairs, imageDir, labelDir)
    ensures forall i :: 0 <= i < |pairs| ==>
      MovePairs(files, dirs, pairs, imageDir, labelDir).1[i].outcome == OutcomeFromStart(files, dirs, pairs[i], imageDir, labelDir)
    decreases |pairs|
  {
    if |pairs| > 0 {
      var first := MovePair(files, dirs, pairs[0], imageDir, labelDir);
      var rest := pairs[1..];
      var log := MovePairs(files, dirs, pairs, imageDir, labelDir).1;
      var restLog := MovePairs(first.0, dirs, rest, imageDir, labelDir).1;
      NoAliasingTail(pairs, imageDir, labelDir);
      MovePairsOutcomes(first.0, dirs, rest, imageDir, labelDir);
      assert log == [first.1] + restLog;
      forall i | 0 <= i < |pairs|
        ensures log[i].outcome == OutcomeFromStart(files, dirs, pairs[i], imageDir, labelDir)
      {
        if i > 0 {
          assert log[i] == restLog[i - 1];
          assert pairs[i] == rest[i - 1];
          FirstMoveKeepsLater(files, dirs, pairs, imageDir, labelDir, i);
        }
      }
    }
  }

  /** Dropping the first pair keeps the pairs free of aliasing. */
  lemma NoAliasingTail(pairs: seq<Pair>, imageDir: string, labelDir: string)
    requires |pairs| > 0 && NoAliasing(pairs, imageDir, labelDir)
    ensures NoAliasing(pairs[1..], imageDir, labelDir)
  {
    var rest := pairs[1..];
    forall i, j | 0 <= i < |rest| && 0 <= j < |rest|
      ensures rest[i].imagePath != rest[j].labelPath
    {
      assert rest[i] == pairs[i + 1] && rest[j] == pairs[j + 1];
    }
    forall i, j | 0 <= i < j < |rest|
      ensures rest[i].imagePath != rest[j].imagePath && rest[i].labelPath != rest[j].labelPath
    {
      assert rest[i] == pairs[i + 1] && rest[j] == pairs[j + 1];
    }
    forall i, j | 0 <= i < |rest| && 0 <= j < |rest|
      ensures && DestOf(imageDir, rest[i].imagePath) != rest[j].imagePath
              && DestOf(imageDir, rest[i].imagePath) != rest[j].labelPath
              && DestOf(labelDir, rest[i].labelPath) != rest[j].imagePath
              && DestOf(labelDir, rest[i].labelPath) != rest[j].labelPath
    {
      assert rest[i] == pairs[i + 1] && rest[j] == pairs[j + 1];
    }
  }

  /** Moving the first pair does not change what a later pair's move will find. */
  lemma FirstMoveKeepsLater(files: set<string>, dirs: set<string>, pairs: seq<Pair>, imageDir: string, labelDir: string, i: nat)
    requires NoAliasing(pairs, imageDir, labelDir)
    requires 0 < i < |pairs|
    ensures OutcomeFromStart(MovePair(files, dirs, pairs[0], imageDir, labelDir).0, dirs, pairs[i], imageDir, labelDir)
         == OutcomeFromStart(files, dirs, pairs[i], imageDir, labelDir)
  {
    NotTouchedByEarlierPair(pairs, imageDir, labelDir, 0, i);
  }

  /** A path that is no pair's source is never removed by the moves. */
  lemma {:induction false} MovePairsKeeps(files: set<string>, dirs: set<string>, pairs: seq<Pair>,
                                          imageDir: string, labelDir: string, p: string)
    requires forall j :: 0 <= j < |pairs| ==> p != pairs[j].imagePath && p != pairs[j].labelPath
    requires p in files
    ensures p in MovePairs(files, dirs, pairs, imageDir, labelDir).0
    decreases |pairs|
  {
    if |pairs| > 0 {
      var first := MovePair(files, dirs, pairs[0], imageDir, labelDir);
      assert forall j :: 0 <= j < |pairs[1..]| ==> pairs[1..][j] == pairs[j + 1];
      MovePairsKeeps(first.0, dirs, pairs[1..], imageDir, labelDir, p);
    }
  }

  /** A path that is no pair's destination never appears through the moves. */
  lemma {:induction false} MovePairsAddsOnlyDestinations(files: set<string>, dirs: set<string>, pairs: seq<Pair>,
                                                         imageDir: string, labelDir: string, p: string)
    requires forall j :: 0 <= j < |pairs| ==>
      p != DestOf(imageDir, pairs[j].imagePath) && p != DestOf(labelDir, pairs[j].labelPath)
    requires p !in files
    ensures p !in MovePairs(files, dirs, pairs, imageDir, labelDir).0
    decreases |pairs|
  {
    if |pairs| > 0 {
      var first := MovePair(files, dirs, pairs[0], imageDir, labelDir);
      assert forall j :: 0 <= j < |pairs[1..]| ==> pairs[1..][j] == pairs[j + 1];
      MovePairsAddsOnlyDestinations(first.0, dirs, pairs[1..], imageDir, labelDir, p);
    }
  }

  /** What a log entry promises about the files afterwards: a moved image is at its
      destination and gone from its source, and so is a moved label. */
  predicate Placed(e: MoveLog, files: set<string>)
  {
    && (e.outcome != Skipped ==> e.imageDest in files && e.pair.imagePath !in files)
    && (e.outcome == BothMoved ==> e.labelDest in files && e.pair.labelPath !in files)
  }

  /** Every entry of `log` is placed in `files`. */
  predicate AllPlaced(log: seq<MoveLog>, files: set<string>)
  {
    forall i :: 0 <= i < |log| ==> Placed(log[i], files)
  }

  /** Later moves keep an entry placed when they neither take from its destinations
      nor put anything at its sources. */
  lemma PlacedPersists(e: MoveLog, files: set<string>, dirs: set<string>, pairs: seq<Pair>,
                       imageDir: string, labelDir: string)
    requires Placed(e, files)
    requires forall j :: 0 <= j < |pairs| ==>
      && e.imageDest != pairs[j].imagePath && e.imageDest != pairs[j].labelPath
      && e.labelDest != pairs[j].imagePath && e.labelDest != pairs[j].labelPath
    requires forall j :: 0 <= j < |pairs| ==>
      && e.pair.imagePath != DestOf(imageDir, pairs[j].imagePath) && e.pair.imagePath != DestOf(labelDir, pairs[j].labelPath)
      && e.pair.labelPath != DestOf(imageDir, pairs[j].imagePath) && e.pair.labelPath != DestOf(labelDir, pairs[j].labelPath)
    ensures Placed(e, MovePairs(files, dirs, pairs, imageDir, labelDir).0)
  {
    if e.outcome != Skipped {
      MovePairsKeeps(files, dirs, pairs, imageDir, labelDir, e.imageDest);
      MovePairsAddsOnlyDestinations(files, dirs, pairs, imageDir, labelDir, e.pair.imagePath);
    }
    if e.outcome == BothMoved {
      MovePairsKeeps(files, dirs, pairs, imageDir, labelDir, e.labelDest);
      MovePairsAddsOnlyDestinations(files, dirs, pairs, imageDir, labelDir, e.pair.labelPath);
    }
  }

  /** Without aliasing, after `move_file_pairs` every moved image and label sits at
      its destination and no longer at its source. */
  lemma {:induction false} MovePairsPlacement(files: set<string>, dirs: set<string>, pairs: seq<Pair>,
                                              imageDir: string, labelDir: string)
    requires NoAliasing(pairs, imageDir, labelDir)
    ensures var r := MovePairs(files, dirs, pairs, imageDir, labelDir); AllPlaced(r.1, r.0)
    decreases |pairs|
  {
    if |pairs| > 0 {
      var first := MovePair(files, dirs, pairs[0], imageDir, labelDir);
      var rest := pairs[1..];
      var r := MovePairs(files, dirs, pairs, imageDir, labelDir);
      var restRun := MovePairs(first.0, dirs, rest, imageDir, labelDir);
      assert r.0 == restRun.0 && r.1 == [first.1] + restRun.1;
      NoAliasingTail(pairs, imageDir, labelDir);
      MovePairsPlacement(first.0, dirs, rest, imageDir, labelDir);
      FirstApartFromRest(pairs, imageDir, labelDir);
      PlacedPersists(first.1, first.0, dirs, rest, imageDir, labelDir);
      forall i | 0 <= i < |pairs|
        ensures Placed(r.1[i], r.0)
      {
        if i == 0 {
          assert r.1[0] == first.1;
        } else {
          assert r.1[i] == restRun.1[i - 1];
        }
      }
    }
  }

  /** Without aliasing, the first pair's destinations are no later pair's sources, and
      its sources are no later pair's destinations. */
  lemma FirstApartFromRest(pairs: seq<Pair>, imageDir: string, labelDir: string)
    requires |pairs| > 0 && NoAliasing(pairs, imageDir, labelDir)
    ensures var imageDest, labelDest := DestOf(imageDir, pairs[0].imagePath), DestOf(labelDir, pairs[0].labelPath);
      forall j :: 0 <= j < |pairs[1..]| ==>
        && imageDest != pairs[1..][j].imagePath && imageDest != pairs[1..][j].labelPath
        && labelDest != pairs[1..][j].imagePath && labelDest != pairs[1..][j].labelPath
    ensures forall j :: 0 <= j < |pairs[1..]| ==>
      && pairs[0].imagePath != DestOf(imageDir, pairs[1..][j].imagePath)
      && pairs[0].imagePath != DestOf(labelDir, pairs[1..][j].labelPath)
      && pairs[0].labelPath != DestOf(imageDir, pairs[1..][j].imagePath)
      && pairs[0].labelPath != DestOf(labelDir, pairs[1..][j].labelPath)
  {
    forall j | 0 <= j < |pairs[1..]|
      ensures pairs[1..][j] == pairs[j + 1]
    {
    }
  }

  /** The two calls of `move_file_pairs` in `split_data`: the training pairs first,
      then the validation pairs on the files the first call left. */
  function MoveSplit(files: set<string>, dirs: set<string>,
                     train: seq<Pair>, trainImages: string, trainLabels: string,
                     valid: seq<Pair>, validImages: string, validLabels: string): (r: (set<string>, seq<MoveLog>))
    ensures |r.1| == |train| + |valid|
    ensures LogFollows(r.1[..|train|], train, trainImages, trainLabels)
    ensures LogFollows(r.1[|train|..], valid, validImages, validLabels)
  {
    var trainMoves := MovePairs(files, dirs, train, trainImages, trainLabels);
    var validMoves := MovePairs(trainMoves.0, dirs, valid, validImages, validLabels);
    MovePairsLog(files, dirs, train, trainImages, trainLabels);
    MovePairsLog(trainMoves.0, dirs, valid, validImages, validLabels);
    var log := trainMoves.1 + validMoves.1;
    assert log[..|train|] == trainMoves.1 && log[|train|..] == validMoves.1;
    (validMoves.0, log)
  }

  /** Two pairs that do not disturb each other: no source of `x` is a source or a
      destination of `y`. */
  predicate Apart(x: Pair, y: Pair, yImages: string, yLabels: string)
  {
    && x.imagePath != y.imagePath && x.imagePath != y.labelPath
    && x.labelPath != y.imagePath && x.labelPath != y.labelPath
    && x.imagePath != DestOf(yImages, y.imagePath) && x.imagePath != DestOf(yLabels, y.labelPath)
    && x.labelPath != DestOf(yImages, y.imagePath) && x.labelPath != DestOf(yLabels, y.labelPath)
  }

  /** The training and validation moves do not disturb each other. */
  predicate NoAliasingAcross(train: seq<Pair>, trainImages: string, trainLabels: string,
                             valid: seq<Pair>, validImages: string, validLabels: string)
  {
    forall i, j :: 0 <= i < |train| && 0 <= j < |valid| ==>
      Apart(train[i], valid[j], validImages, validLabels) && Apart(valid[j], train[i], trainImages, trainLabels)
  }

  /** Without aliasing across the two halves, the training moves leave every
      validation source as it was. */
  lemma TrainKeepsValidSources(files: set<string>, dirs: set<string>,
                               train: seq<Pair>, trainImages: string, trainLabels: string,
                               valid: seq<Pair>, validImages: string, validLabels: string, i: nat)
    requires NoAliasingAcross(train, trainImages, trainLabels, valid, validImages, validLabels)
    requires i < |valid|
    ensures OutcomeFromStart(MovePairs(files, dirs, train, trainImages, trainLabels).0, dirs, valid[i], validImages, validLabels)
         == OutcomeFromStart(files, dirs, valid[i], validImages, validLabels)
  {
    forall j | 0 <= j < |train|
      ensures Apart(valid[i], train[j], trainImages, trainLabels)
    {
    }
    Untouched(files, dirs, train, trainImages, trainLabels, valid[i].imagePath);
    Untouched(files, dirs, train, trainImages, trainLabels, valid[i].labelPath);
  }

  /** Without aliasing across the two halves, the validation moves keep every
      training entry placed. */
  lemma ValidKeepsTrainPlaced(files: set<string>, dirs: set<string>,
                              train: seq<Pair>, trainImages: string, trainLabels: string,
                              valid: seq<Pair>, validImages: string, validLabels: string, i: nat)
    requires NoAliasing(train, trainImages, trainLabels)
    requires NoAliasingAcross(train, trainImages, trainLabels, valid, validImages, validLabels)
    requires i < |train|
    ensures var t := MovePairs(files, dirs, train, trainImages, trainLabels);
      Placed(t.1[i], MovePairs(t.0, dirs, valid, validImages, validLabels).0)
  {
    var t := MovePairs(files, dirs, train, trainImages, trainLabels);
    MovePairsPlacement(files, dirs, train, trainImages, trainLabels);
    MovePairsLog(files, dirs, train, trainImages, trainLabels);
    var e := t.1[i];
    assert e.pair == train[i];
    assert e.imageDest == DestOf(trainImages, train[i].imagePath);
    assert e.labelDest == DestOf(trainLabels, train[i].labelPath);
    forall j | 0 <= j < |valid|
      ensures Apart(valid[j], train[i], trainImages, trainLabels) && Apart(train[i], valid[j], validImages, validLabels)
    {
    }
    PlacedPersists(e, t.0, dirs, valid, validImages, validLabels);
  }

  /** The log of the two moves records, for each training pair and then each
      validation pair, the outcome that the files and directories at the start dictate. */
  predicate OutcomesFromStart(log: seq<MoveLog>, files: set<string>, dirs: set<string>,
                              train: seq<Pair>, trainImages: string, trainLabels: string,
                              valid: seq<Pair>, validImages: string, validLabels: string)
  {
    && |log| == |train| + |valid|
    && (forall i :: 0 <= i < |train| ==> log[i].outcome == OutcomeFromStart(files, dirs, train[i], trainImages, trainLabels))
    && (forall i :: 0 <= i < |valid| ==>
          log[|train| + i].outcome == OutcomeFromStart(files, dirs, valid[i], validImages, validLabels))
  }

  /** Without aliasing, each training and validation pair's outcome is decided by what
      existed before the split started, and every moved file ends up at its
      destination and gone from its source. */
  lemma MoveSplitPlacement(files: set<string>, dirs: set<string>,
                           train: seq<Pair>, trainImages: string, trainLabels: string,
                           valid: seq<Pair>, validImages: string, validLabels: string)
    requires NoAliasing(train, trainImages, trainLabels) && NoAliasing(valid, validImages, validLabels)
    requires NoAliasingAcross(train, trainImages, trainLabels, valid, validImages, validLabels)
    ensures var r := MoveSplit(files, dirs, train, trainImages, trainLabels, valid, validImages, validLabels);
      && OutcomesFromStart(r.1, files, dirs, train, trainImages, trainLabels, valid, validImages, validLabels)
      && AllPlaced(r.1, r.0)
  {
    var t := MovePairs(files, dirs, train, trainImages, trainLabels);
    var v := MovePairs(t.0, dirs, valid, validImages, validLabels);
    var r := MoveSplit(files, dirs, train, trainImages, trainLabels, valid, validImages, validLabels);
    assert r.0 == v.0 && r.1 == t.1 + v.1;
    MovePairsOutcomes(files, dirs, train, trainImages, trainLabels);
    MovePairsOutcomes(t.0, dirs, valid, validImages, validLabels);
    MovePairsPlacement(t.0, dirs, valid, validImages, validLabels);
    forall i | 0 <= i < |train|
      ensures r.1[i].outcome == OutcomeFromStart(files, dirs, train[i], trainImages, trainLabels)
      ensures Placed(r.1[i], r.0)
    {
      assert r.1[i] == t.1[i];
      ValidKeepsTrainPlaced(files, dirs, train, trainImages, trainLabels, valid, validImages, validLabels, i);
    }
    forall i | 0 <= i < |valid|
      ensures r.1[|train| + i].outcome == OutcomeFromStart(files, dirs, valid[i], validImages, validLabels)
      ensures Placed(r.1[|train| + i], r.0)
    {
      assert r.1[|train| + i] == v.1[i];
      TrainKeepsValidSources(files, dirs, train, trainImages, trainLabels, valid, validImages, validLabels, i);
    }
    forall i | 0 <= i < |r.1|
      ensures Placed(r.1[i], r.0)
    {
      if i >= |train| {
        assert r.1[i] == r.1[|train| + (i - |train|)];
      }
    }
  }

  /** A path that is none of the pairs' sources or destinations is in the files after
      the moves exactly when it was before. */
  lemma Untouched(files: set<string>, dirs: set<string>, pairs: seq<Pair>,
                  imageDir: string, labelDir: string, p: string)
    requires forall j :: 0 <= j < |pairs| ==>
      && p != pairs[j].imagePath && p != pairs[j].labelPath
      && p != DestOf(imageDir, pairs[j].imagePath) && p != DestOf(labelDir, pairs[j].labelPath)
    ensures p in MovePairs(files, dirs, pairs, imageDir, labelDir).0 <==> p in files
  {
    if p in files {
      MovePairsKeeps(files, dirs, pairs, imageDir, labelDir, p);
    } else {
      MovePairsAddsOnlyDestinations(files, dirs, pairs, imageDir, labelDir, p);
    }
  }

  /** `split_data`: select, shuffle (by the given swaps), cut, then move the
      training pairs followed by the validation pairs. */
  function SplitData(imageDir: string, labelDir: string,
                     trainImages: string, validImages: string,
                     trainLabels: string, validLabels: string,
                     ratio: real, listing: seq<string>, files: set<string>, dirs: set<string>,
                     swaps: seq<(nat, nat)>): (r: SplitRun)
    requires SwapsWithin(swaps, |SelectPairs(imageDir, labelDir, listing, files)|)
    ensures r.pairs == SelectPairs(imageDir, labelDir, listing, files)
    ensures multiset(r.shuffled) == multiset(r.pairs)
    ensures r.train + r.valid == r.shuffled
    ensures 0.0 <= ratio <= 1.0 ==> |r.train| == SplitPoint(|r.pairs|, ratio)
    ensures |r.log| == |r.pairs| == |r.train| + |r.valid|
    ensures LogFollows(r.log[..|r.train|], r.train, trainImages, trainLabels)
    ensures LogFollows(r.log[|r.train|..], r.valid, validImages, validLabels)
    ensures (r.files, r.log) == MoveSplit(files, dirs, r.train, trainImages, trainLabels, r.valid, validImages, validLabels)
  {
    var pairs := SelectPairs(imageDir, labelDir, listing, files);
    var shuffled := ApplySwaps(pairs, swaps);
    var parts := Partition(shuffled, ratio);
    var moves := MoveSplit(files, dirs, parts.0, trainImages, trainLabels, parts.1, validImages, validLabels);
    SplitRun(pairs, shuffled, parts.0, parts.1, moves.1, moves.0)
  }

  /** When the training and validation pairs do not alias, every pair of the split
      gets the outcome its own files and destination directories dictate, and every
      moved file ends up at its destination and no longer at its source. */
  lemma SplitDataPlacement(imageDir: string, labelDir: string,
                           trainImages: string, validImages: string,
                           trainLabels: string, validLabels: string,
                           ratio: real, listing: seq<string>, files: set<string>, dirs: set<string>,
                           swaps: seq<(nat, nat)>)
    requires SwapsWithin(swaps, |SelectPairs(imageDir, labelDir, listing, files)|)
    requires var r := SplitData(imageDir, labelDir, trainImages, validImages, trainLabels, validLabels,
                                ratio, listing, files, dirs, swaps);
      && NoAliasing(r.train, trainImages, trainLabels) && NoAliasing(r.valid, validImages, validLabels)
      && NoAliasingAcross(r.train, trainImages, trainLabels, r.valid, validImages, validLabels)
    ensures var r := SplitData(imageDir, labelDir, trainImages, validImages, trainLabels, validLabels,
                               ratio, listing, files, dirs, swaps);
      && OutcomesFromStart(r.log, files, dirs, r.train, trainImages, trainLabels, r.valid, validImages, validLabels)
      && AllPlaced(r.log, r.files)
  {
    var r := SplitData(imageDir, labelDir, trainImages, validImages, trainLabels, validLabels,
                       ratio, listing, files, dirs, swaps);
    var m := MoveSplit(files, dirs, r.train, trainImages, trainLabels, r.valid, validImages, validLabels);
    assert r.files == m.0 && r.log == m.1;
    MoveSplitPlacement(files, dirs, r.train, trainImages, trainLabels, r.valid, validImages, validLabels);
  }
}
