/** The small string helpers of the application: upload file-name check and email domain. */
module Helpers {
  import opened Results
  import opened Text

  /** File extensions accepted for product and profile images. */
  const AllowedExtensions: set<string> := {"png", "jpg", "jpeg", "gif"}

  /** Position i is the last '.' of f. */
  ghost predicate LastDotAt(f: string, i: int) {
    0 <= i < |f| && f[i] == '.' && '.' !in f[i + 1..]
  }

  /** The text after the last '.', as f.rsplit('.', 1)[1] gives it; None when f has no '.'. */
  function Extension(f: string): Option<string> {
    match LastIndexOf(f, '.')
    case None => None
    case Some(i) => Some(f[i + 1..])
  }

  /** There is no extension exactly when f has no '.'; otherwise it is what follows the last '.'. */
  lemma ExtensionSpec(f: string)
    ensures var r := Extension(f);
      (r.None? <==> '.' !in f)
      && (r.Some? ==> exists i :: LastDotAt(f, i) && r.value == f[i + 1..])
  {
    match LastIndexOf(f, '.')
    case None =>
    case Some(i) =>
      assert LastDotAt(f, i);
  }

  /** Two last dots are the same dot. */
  lemma LastDotUnique(f: string, i: int, j: int)
    requires LastDotAt(f, i) && LastDotAt(f, j)
    ensures i == j
  {
  }

  /** allowed_file: the text after the last '.' is, lower-cased, an image extension. */
  function AllowedFile(f: string): bool {
    var e := Extension(f);
    e.Some? && Lower(e.value) in AllowedExtensions
  }

  /** A file is allowed exactly when it has a '.', and the text after its last '.' is,
      lower-cased, one of the image extensions. */
  lemma AllowedFileSpec(f: string)
    ensures AllowedFile(f) <==> exists i :: LastDotAt(f, i) && Lower(f[i + 1..]) in AllowedExtensions
  {
    var e := Extension(f);
    ExtensionSpec(f);
    if i :| LastDotAt(f, i) && Lower(f[i + 1..]) in AllowedExtensions {
      var j :| LastDotAt(f, j) && e.value == f[j + 1..];
      LastDotUnique(f, i, j);
    }
  }

  /** Upper-case extensions are accepted: the check lower-cases what follows the last dot. */
  lemma AllowedFileIgnoresCase(stem: string, ext: string)
    requires '.' !in ext && Lower(ext) in AllowedExtensions
    ensures AllowedFile(stem + "." + ext)
  {
    var f := stem + "." + ext;
    assert f[|stem|] == '.';
    assert f[|stem| + 1..] == ext;
    assert LastDotAt(f, |stem|);
    AllowedFileSpec(f);
  }

  /** extract_college_from_email: email.split('@')[1].lower(), the text between the first '@'
      and the next '@' (or the end), lower-cased. Python raises IndexError when there is no '@';
      here that is None. */
  function ExtractCollegeFromEmail(email: string): (r: Option<string>)
    ensures r.None? <==> '@' !in email
    ensures r.Some? ==> '@' !in r.value
  {
    match IndexOf(email, '@')
    case None => None
    case Some(i) =>
      var rest := email[i + 1..];
      var segment := match IndexOf(rest, '@')
        case None => rest
        case Some(j) => rest[..j];
      assert '@' !in segment;
      LowerKeepsAt(segment);
      Some(Lower(segment))
  }

  /** Lower-casing neither adds nor removes an '@'. */
  lemma LowerKeepsAt(s: string)
    ensures '@' in Lower(s) <==> '@' in s
  {
    var l := Lower(s);
    LowerSpec(s);
    if '@' in s {
      var k :| 0 <= k < |s| && s[k] == '@';
      assert l[k] == '@';
    }
    if '@' in l {
      var k :| 0 <= k < |l| && l[k] == '@';
      assert s[k] == '@';
    }
  }

  /** For an address local@domain with a single '@', the college key is the lower-cased domain. */
  lemma ExtractDomain(local: string, domain: string)
    requires '@' !in local && '@' !in domain
    ensures ExtractCollegeFromEmail(local + "@" + domain) == Some(Lower(domain))
  {
    var email := local + "@" + domain;
    assert email[|local|] == '@';
    assert email[..|local|] == local;
    assert IndexOf(email, '@') == Some(|local|);
    assert email[|local| + 1..] == domain;
  }
}
