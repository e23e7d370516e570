/** The `os.path` functions the upload script calls, with POSIX semantics
    (`posixpath`): '/' is the only separator. */
module PosixPath {
  import opened Wrappers
  import opened PyStr

  /** `basename(p)`: everything after the last '/'. */
  function Basename(p: string): (r: string)
    ensures '/' !in r
    ensures EndsWith(p, r)
    ensures |r| < |p| ==> p[|p| - |r| - 1] == '/'
  {
    var i := RFind(p, '/') + 1;
    assert forall k :: 0 <= k < |p| - i ==> p[i..][k] == p[i + k];
    p[i..]
  }

  predicate AllSlashes(s: string) {
    forall k :: 0 <= k < |s| ==> s[k] == '/'
  }

  /** `dirname(p)`: the text up to the last '/', without its trailing slashes
      unless it is nothing but slashes. It is empty exactly when `p` has no
      '/', and it is always a prefix of `p`. */
  function Dirname(p: string): (r: string)
    ensures r == [] <==> '/' !in p
    ensures StartsWith(p, r)
  {
    var i := RFind(p, '/') + 1;
    var head := p[..i];
    if head != [] && !AllSlashes(head) then
      var r := RStripChar(head, '/');
      assert r != [] by {
        var k :| 0 <= k < |head| && head[k] != '/';
      }
      r
    else
      assert head == [] ==> '/' !in p by {
        if head == [] { assert forall k :: 0 <= k < |p| ==> p[k] != '/'; }
      }
      assert head != [] ==> p[i - 1] == '/';
      head
  }

  /** `join(a, b)` for two components: `b` alone when it is absolute, else the
      two with one '/' between them unless `a` is empty or already ends in '/'. */
  function Join(a: string, b: string): (r: string)
    ensures StartsWith(b, "/") ==> r == b
    ensures !StartsWith(b, "/") && (a == [] || EndsWith(a, "/")) ==> r == a + b
    ensures !StartsWith(b, "/") && a != [] && !EndsWith(a, "/") ==> r == a + "/" + b
    ensures EndsWith(r, b)
  {
    if StartsWith(b, "/") then b
    else if a == [] || EndsWith(a, "/") then a + b
    else a + "/" + b
  }

  /** Where the user name after a leading `~` ends: the first '/' after it, or the end. */
  function UserEnd(path: string): (i: nat)
    requires path != []
    ensures 1 <= i <= |path|
    ensures '/' !in path[1..i]
    ensures i == |path| || path[i] == '/'
  {
    var slash := FindFrom(path, '/', 1);
    if slash < 0 then |path| else slash
  }

  /** Joining a name without '/' to a directory that ends in '/' appends it. */
  lemma JoinIntoDir(dir: string, name: string)
    requires EndsWith(dir, "/") && '/' !in name
    ensures Join(dir, name) == dir + name
  {
    assert !StartsWith(name, "/") by {
      if name != [] { assert name[0] in name; }
    }
  }

  /** `expanduser(path)`: a leading `~` (the current user's home, `home`) or
      `~name` (the home of `name`, from `homes`) is replaced by that directory
      without its trailing slashes; an unknown home leaves `path` unchanged,
      and an expansion to the empty string becomes "/". */
  function ExpandUser(path: string, home: Option<string>, homes: map<string, string>): (r: string)
    ensures !StartsWith(path, "~") ==> r == path
    ensures StartsWith(path, "~/") && home.Some? ==> r == RStripChar(home.value, '/') + path[1..]
    ensures StartsWith(path, "~") && UserEnd(path) == 1 && home.Some? ==>
      var expanded := RStripChar(home.value, '/') + path[1..];
      r == if expanded == [] then "/" else expanded
    ensures StartsWith(path, "~") && UserEnd(path) == 1 && home.None? ==> r == path
    ensures StartsWith(path, "~") && UserEnd(path) > 1 && path[1..UserEnd(path)] in homes ==>
      var expanded := RStripChar(homes[path[1..UserEnd(path)]], '/') + path[UserEnd(path)..];
      r == if expanded == [] then "/" else expanded
    ensures StartsWith(path, "~") && UserEnd(path) > 1 && path[1..UserEnd(path)] !in homes ==> r == path
  {
    if !StartsWith(path, "~") then path
    else
      var i := UserEnd(path);
      var userHome :=
        if i == 1 then home
        else if path[1..i] in homes then Some(homes[path[1..i]])
        else None;
      match userHome
      case None => path
      case Some(h) =>
        var expanded := RStripChar(h, '/') + path[i..];
        if expanded == [] then "/" else expanded
  }
}
