/** File names and extensions with the meaning of Rust's `std::path`. */
module Paths {
  import opened Wrappers

  function LastDot(file: string): (r: Option<nat>)
    ensures r.Some? ==> r.value < |file| && file[r.value] == '.' && '.' !in file[r.value + 1..]
    ensures r.None? ==> '.' !in file
  {
    if file == "" then None
    else if file[|file| - 1] == '.' then Some(|file| - 1)
    else
      var r := LastDot(file[..|file| - 1]);
      assert file == file[..|file| - 1] + [file[|file| - 1]];
      assert r.Some? ==> file[r.value + 1..] == file[..|file| - 1][r.value + 1..] + [file[|file| - 1]];
      r
  }

  /** `file_stem`: a leading dot does not start an extension. */
  function Stem(file: string): string {
    var d := LastDot(file);
    if d.Some? && d.value > 0 then file[..d.value] else file
  }

  /** `with_extension` on a file name. */
  function WithExtension(file: string, ext: string): string {
    Stem(file) + "." + ext
  }

  lemma {:induction false} DotIsLast(stem: string, ext: string)
    requires '.' !in ext
    ensures LastDot(stem + "." + ext) == Some(|stem|)
  {
    var file := stem + "." + ext;
    if ext != "" {
      DotIsLast(stem, ext[..|ext| - 1]);
      assert file[..|file| - 1] == stem + "." + ext[..|ext| - 1];
    }
  }

  lemma StemOf(stem: string, ext: string)
    requires stem != "" && '.' !in ext
    ensures Stem(stem + "." + ext) == stem
  {
    DotIsLast(stem, ext);
    assert (stem + "." + ext)[..|stem|] == stem;
  }

  /** The part after the last slash. */
  function LastComponent(path: string): string {
    if path == "" then ""
    else if path[|path| - 1] == '/' then ""
    else LastComponent(path[..|path| - 1]) + [path[|path| - 1]]
  }

  lemma {:induction false} LastComponentOf(dir: string, file: string)
    requires '/' !in file
    ensures LastComponent(dir + "/" + file) == file
  {
    var path := dir + "/" + file;
    if file == "" {
      assert path == dir + "/";
    } else {
      var init := file[..|file| - 1];
      assert path[..|path| - 1] == dir + "/" + init;
      LastComponentOf(dir, init);
      assert init + [file[|file| - 1]] == file;
    }
  }
}
