/**
 * The file filter of `scan_images` (corrds2.py, get_coords.py): keep, in
 * walk order, every file whose lower-cased name ends with one of the
 * extensions. The directory walk itself is given as a list.
 */
module ImageScan {
  import opened AsciiCase

  /** One `(root, files)` step of `os.walk`. */
  datatype WalkStep = WalkStep(root: string, files: seq<string>)

  /** `os.path.join(root, file)`, kept as its two parts. */
  datatype ImagePath = ImagePath(root: string, file: string)

  const DefaultExtensions: seq<string> := [".jpg", ".jpeg", ".png", ".tiff", ".bmp", ".gif", ".heic"]

  predicate EndsWith(s: string, suffix: string) {
    |suffix| <= |s| && s[|s| - |suffix|..] == suffix
  }

  /** `name.lower().endswith(extensions)`. */
  predicate HasImageExtension(name: string, extensions: seq<string>): (b: bool)
    ensures extensions == [] ==> !b
    ensures "" in extensions ==> b
  {
    exists e :: e in extensions && EndsWith(Lower(name), e)
  }

  /** The images of one directory, in listing order. */
  function ImagesInDir(root: string, files: seq<string>, extensions: seq<string>): (ps: seq<ImagePath>)
    ensures |ps| <= |files|
    ensures forall p :: p in ps ==> p.root == root && p.file in files && HasImageExtension(p.file, extensions)
  {
    if files == [] then []
    else
      var f := files[|files| - 1];
      ImagesInDir(root, files[..|files| - 1], extensions)
        + (if HasImageExtension(f, extensions) then [ImagePath(root, f)] else [])
  }

  /** The images of the whole walk, directory after directory. */
  function ImagesIn(walk: seq<WalkStep>, extensions: seq<string>): (ps: seq<ImagePath>)
    ensures forall i :: 0 <= i < |ps| ==> HasImageExtension(ps[i].file, extensions)
  {
    if walk == [] then []
    else
      var d := walk[|walk| - 1];
      ImagesIn(walk[..|walk| - 1], extensions) + ImagesInDir(d.root, d.files, extensions)
  }

  /** `scan_images`: the nested loops appending every matching file. */
  method ScanImages(walk: seq<WalkStep>, extensions: seq<string>) returns (imageFiles: seq<ImagePath>)
    ensures imageFiles == ImagesIn(walk, extensions)
  {
    imageFiles := [];
    var k := 0;
    while k < |walk|
      invariant 0 <= k <= |walk|
      invariant imageFiles == ImagesIn(walk[..k], extensions)
    {
      imageFiles := ScanDirectory(imageFiles, walk[k].root, walk[k].files, extensions);
      assert walk[..k + 1][..k] == walk[..k];
      k := k + 1;
    }
    assert walk[..|walk|] == walk;
  }

  /** The inner loop of `scan_images`: one directory's files, appended in order. */
  method ScanDirectory(found: seq<ImagePath>, root: string, files: seq<string>, extensions: seq<string>)
    returns (imageFiles: seq<ImagePath>)
    ensures imageFiles == found + ImagesInDir(root, files, extensions)
  {
    imageFiles := found;
    var j := 0;
    while j < |files|
      invariant 0 <= j <= |files|
      invariant imageFiles == found + ImagesInDir(root, files[..j], extensions)
    {
      var file := files[j];
      if HasImageExtension(file, extensions) {
        imageFiles := imageFiles + [ImagePath(root, file)];
      }
      assert files[..j + 1][..j] == files[..j];
      j := j + 1;
    }
    assert files[..|files|] == files;
  }

  /** A file is listed exactly when its name has an image extension. */
  lemma {:induction false} ImagesInDirMembership(root: string, files: seq<string>, extensions: seq<string>, p: ImagePath)
    ensures p in ImagesInDir(root, files, extensions)
            <==> p.root == root && p.file in files && HasImageExtension(p.file, extensions)
  {
    if files != [] {
      var init := files[..|files| - 1];
      ImagesInDirMembership(root, init, extensions, p);
      assert files == init + [files[|files| - 1]];
    }
  }

  /** Filtering keeps order: the images of two walks in a row are those of each, in turn. */
  lemma {:induction false} ImagesInAppend(a: seq<WalkStep>, b: seq<WalkStep>, extensions: seq<string>)
    ensures ImagesIn(a + b, extensions) == ImagesIn(a, extensions) + ImagesIn(b, extensions)
  {
    if b == [] {
      assert a + b == a;
    } else {
      var init := b[..|b| - 1];
      var d := b[|b| - 1];
      assert (a + b)[..|a + b| - 1] == a + init;
      assert (a + b)[|a + b| - 1] == d;
      calc {
        ImagesIn(a + b, extensions);
        ImagesIn(a + init, extensions) + ImagesInDir(d.root, d.files, extensions);
        { ImagesInAppend(a, init, extensions); }
        ImagesIn(a, extensions) + ImagesIn(init, extensions) + ImagesInDir(d.root, d.files, extensions);
      }
    }
  }

  /** Within a directory too: the images of two file lists in a row are those of each, in turn. */
  lemma {:induction false} ImagesInDirAppend(root: string, f: seq<string>, g: seq<string>, extensions: seq<string>)
    ensures ImagesInDir(root, f + g, extensions) == ImagesInDir(root, f, extensions) + ImagesInDir(root, g, extensions)
  {
    if g == [] {
      assert f + g == f;
    } else {
      var init := g[..|g| - 1];
      assert (f + g)[..|f + g| - 1] == f + init;
      ImagesInDirAppend(root, f, init, extensions);
    }
  }

  /** A path is in the scan exactly when some walked directory lists it and its name matches. */
  lemma {:induction false} ImagesInMembership(walk: seq<WalkStep>, extensions: seq<string>, p: ImagePath)
    ensures p in ImagesIn(walk, extensions)
            <==> HasImageExtension(p.file, extensions)
                 && exists k :: 0 <= k < |walk| && walk[k].root == p.root && p.file in walk[k].files
  {
    if walk != [] {
      var init := walk[..|walk| - 1];
      var d := walk[|walk| - 1];
      ImagesInMembership(init, extensions, p);
      ImagesInDirMembership(d.root, d.files, extensions, p);
      if exists k :: 0 <= k < |walk| && walk[k].root == p.root && p.file in walk[k].files {
        var k :| 0 <= k < |walk| && walk[k].root == p.root && p.file in walk[k].files;
        if k < |walk| - 1 {
          assert init[k] == walk[k];
        }
      }
      if exists k :: 0 <= k < |init| && init[k].root == p.root && p.file in init[k].files {
        var k :| 0 <= k < |init| && init[k].root == p.root && p.file in init[k].files;
        assert walk[k] == init[k];
      }
    }
  }

  /** Matching ignores case: a name and its upper-cased form are kept or dropped together. */
  lemma UpperCaseMatchesAlike(name: string, extensions: seq<string>)
    ensures HasImageExtension(Upper(name), extensions) == HasImageExtension(name, extensions)
  {
    LowerOfUpper(name);
  }

  /** The default extensions accept an upper-case `.JPG` and reject a `.txt`. */
  lemma DefaultExtensionExamples()
    ensures HasImageExtension("A.JPG", DefaultExtensions)
    ensures !HasImageExtension("a.txt", DefaultExtensions)
  {
    SampleNamesLowered();
    assert ".jpg" in DefaultExtensions && EndsWith("a.jpg", ".jpg");
    forall e | e in DefaultExtensions
      ensures !EndsWith("a.txt", e)
    {
      assert "a.txt"[1..] == ".txt";
    }
  }

  lemma SampleNamesLowered()
    ensures Lower("A.JPG") == "a.jpg" && Lower("a.txt") == "a.txt"
  {
    var u, v := Lower("A.JPG"), Lower("a.txt");
    assert u[0] == 'a' && u[1] == '.' && u[2] == 'j' && u[3] == 'p' && u[4] == 'g';
    assert v[0] == 'a' && v[1] == '.' && v[2] == 't' && v[3] == 'x' && v[4] == 't';
  }
}
