/** The title a banner gets when it is added: the folder name of its URL
    (src/App.tsx, `getTitleFromUrl`). */
module Titles {
  import opened Text

  const Placeholder: string := "BANNER"

  /** The folder a `/`-split URL names: the last piece, after dropping a last
      piece that holds a `.` (a file name), or "BANNER" when no piece is left
      or the one left is empty. */
  function FolderName(parts: seq<string>): (folder: string)
    requires |parts| >= 1
    ensures folder != []
    ensures folder == Placeholder || folder in parts
    ensures var last := parts[|parts| - 1];
            '.' !in last ==> folder == if last == "" then Placeholder else last
    ensures var last := parts[|parts| - 1];
            '.' in last && |parts| == 1 ==> folder == Placeholder
    ensures '.' in parts[|parts| - 1] && |parts| >= 2 ==>
              folder == if parts[|parts| - 2] == "" then Placeholder else parts[|parts| - 2]
  {
    var kept := if '.' in parts[|parts| - 1] then parts[..|parts| - 1] else parts;
    if kept == [] || kept[|kept| - 1] == "" then Placeholder else kept[|kept| - 1]
  }

  /** `getTitleFromUrl`: the folder name of the trimmed URL, with spaces for
      `_`, in upper case. */
  function TitleFromUrl(url: string): (title: string)
    ensures |title| > 0
    ensures '_' !in title
    ensures forall k :: 0 <= k < |title| ==> !IsLowerAscii(title[k])
  {
    UpperAscii(ReplaceUnderscores(FolderName(Split(Trim(url), '/'))))
  }

  /** A URL made of `/`-separated pieces whose last piece is a file name
      (holds a `.`) is titled after the piece before it, when that is not empty. */
  lemma {:induction false} TitleOfFileUrl(parts: seq<string>)
    requires |parts| >= 2
    requires forall k :: 0 <= k < |parts| ==> '/' !in parts[k]
    requires Trim(Join(parts, '/')) == Join(parts, '/')
    requires '.' in parts[|parts| - 1]
    requires parts[|parts| - 2] != ""
    ensures TitleFromUrl(Join(parts, '/')) == UpperAscii(ReplaceUnderscores(parts[|parts| - 2]))
  {
    SplitOfTrimmedJoin(parts);
    FileFolderName(parts);
    TitleOfFolder(Join(parts, '/'), parts);
  }

  /** A URL that ends in its folder (no file name, no trailing `/`) is titled
      after that folder. */
  lemma {:induction false} TitleOfFolderUrl(parts: seq<string>)
    requires |parts| >= 1
    requires forall k :: 0 <= k < |parts| ==> '/' !in parts[k]
    requires Trim(Join(parts, '/')) == Join(parts, '/')
    requires '.' !in parts[|parts| - 1] && parts[|parts| - 1] != ""
    ensures TitleFromUrl(Join(parts, '/')) == UpperAscii(ReplaceUnderscores(parts[|parts| - 1]))
  {
    SplitOfTrimmedJoin(parts);
    LastFolderName(parts);
    TitleOfFolder(Join(parts, '/'), parts);
  }

  lemma LastFolderName(parts: seq<string>)
    requires |parts| >= 1 && '.' !in parts[|parts| - 1] && parts[|parts| - 1] != ""
    ensures FolderName(parts) == parts[|parts| - 1]
  {
  }

  lemma FileFolderName(parts: seq<string>)
    requires |parts| >= 2 && '.' in parts[|parts| - 1] && parts[|parts| - 2] != ""
    ensures FolderName(parts) == parts[|parts| - 2]
  {
  }

  lemma EmptyFolderName(parts: seq<string>)
    requires |parts| >= 1
    requires parts[|parts| - 1] == ""
             || ('.' in parts[|parts| - 1] && |parts| >= 2 && parts[|parts| - 2] == "")
    ensures FolderName(parts) == Placeholder
  {
  }

  lemma SplitOfTrimmedJoin(parts: seq<string>)
    requires |parts| >= 1
    requires forall k :: 0 <= k < |parts| ==> '/' !in parts[k]
    requires Trim(Join(parts, '/')) == Join(parts, '/')
    ensures Split(Trim(Join(parts, '/')), '/') == parts
  {
    SplitJoin(parts, '/');
  }

  lemma TitleOfFolder(url: string, parts: seq<string>)
    requires Split(Trim(url), '/') == parts
    ensures TitleFromUrl(url) == UpperAscii(ReplaceUnderscores(FolderName(parts)))
  {
  }

  /** A URL whose folder piece is empty gets "BANNER": one ending in `/`, or
      one whose file name follows `//`. */
  lemma {:induction false} EmptyFolderTitle(parts: seq<string>)
    requires |parts| >= 1
    requires forall k :: 0 <= k < |parts| ==> '/' !in parts[k]
    requires Trim(Join(parts, '/')) == Join(parts, '/')
    requires parts[|parts| - 1] == ""
             || ('.' in parts[|parts| - 1] && |parts| >= 2 && parts[|parts| - 2] == "")
    ensures TitleFromUrl(Join(parts, '/')) == Placeholder
  {
    SplitOfTrimmedJoin(parts);
    EmptyFolderName(parts);
    TitleOfFolder(Join(parts, '/'), parts);
    PlaceholderUnchanged();
  }

  /** "BANNER" has no `_` and no lower-case letter to change. */
  lemma PlaceholderUnchanged()
    ensures UpperAscii(ReplaceUnderscores(Placeholder)) == Placeholder
  {
  }

  /** A URL that is only white space, or a bare file name, gets "BANNER". */
  lemma PlaceholderTitle(url: string)
    requires '/' !in Trim(url) && ('.' in Trim(url) || Trim(url) == "")
    ensures TitleFromUrl(url) == Placeholder
  {
    SplitJoin([Trim(url)], '/');
    assert Split(Trim(url), '/') == [Trim(url)];
  }

  /** The folder-name example: `.../my_banner_ad/index.html` is titled
      "MY BANNER AD". */
  lemma ExampleTitle(url: string)
    requires url == "https://cdn.example.com/my_banner_ad/index.html"
    ensures TitleFromUrl(url) == "MY BANNER AD"
  {
    ExampleLiteral();
    ExampleFolderTitle();
    ExampleUpper();
  }

  lemma ExampleFolderTitle()
    ensures TitleFromUrl(ExampleUrl()) == UpperAscii(ReplaceUnderscores("my_banner_ad"))
  {
    ExampleJoin();
    TitleOfFileUrl(ExampleParts());
  }

  lemma ExampleUpper()
    ensures UpperAscii(ReplaceUnderscores("my_banner_ad")) == "MY BANNER AD"
  {
  }

  function ExampleParts(): (parts: seq<string>)
    ensures |parts| == 5 && parts[3] == "my_banner_ad"
    ensures forall k :: 0 <= k < |parts| ==> '/' !in parts[k]
    ensures '.' in parts[4]
  {
    var parts := ["https:", "", "cdn.example.com", "my_banner_ad", "index.html"];
    assert parts[4][5] == '.';
    parts
  }

  function ExampleUrl(): string {
    "https:" + "/" + "" + "/" + "cdn.example.com" + "/" + "my_banner_ad" + "/" + "index.html"
  }

  lemma ExampleJoin()
    ensures Join(ExampleParts(), '/') == ExampleUrl()
    ensures Trim(Join(ExampleParts(), '/')) == Join(ExampleParts(), '/')
  {
    var parts := ExampleParts();
    var url := "https:" + "/" + "" + "/" + "cdn.example.com" + "/" + "my_banner_ad" + "/" + "index.html";
    assert Join(parts, '/') == url by {
      assert parts[1..][1..][1..][1..] == ["index.html"];
      assert parts[1..][1..][1..] == ["my_banner_ad", "index.html"];
    }
    assert url[0] == 'h' && url[|url| - 1] == 'l';
    TrimUnpadded(url);
  }

  lemma ExampleLiteral()
    ensures ExampleUrl() == "https://cdn.example.com/my_banner_ad/index.html"
  {
  }
}
