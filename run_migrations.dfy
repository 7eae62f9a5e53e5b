/**
 * tools/run_migrations.js: applies the `.sql` files of the migrations
 * directory to the database, in file-name order, one query per file. A
 * file whose query fails is reported and the run goes on with the next
 * file; a file that cannot be read ends the run.
 *
 * The directory listing, the files' contents and the server's answers are
 * parameters: `listing` is what `readdirSync` returns, `contents` maps the
 * readable names to their text, and `queryFails` holds the names of the
 * files whose statements the server rejects.
 */
module Migrations {
  import opened JsValues
  import opened Text

  // ---------------------------------------------------------------------------
  // Configuration

  /** `DB_HOST`, `DB_USER`, `DB_PASS` and `DB_NAME`: unset (None) or a string. */
  datatype DbEnv = DbEnv(host: Option<string>, user: Option<string>, pass: Option<string>, name: Option<string>)

  /** A variable is truthy when it is set to a non-empty string. */
  predicate Set(v: Option<string>)
  {
    v.Some? && v.value != []
  }

  /** The script goes on only when all four variables are truthy. */
  predicate EnvComplete(env: DbEnv)
  {
    Set(env.host) && Set(env.user) && Set(env.pass) && Set(env.name)
  }

  // ---------------------------------------------------------------------------
  // Choosing the files

  /** `.filter(f => f.match(/\.sql$/))`: the names ending in `.sql`, in listing order. */
  function SqlFiles(listing: seq<string>): (r: seq<string>)
    ensures |r| <= |listing|
    ensures forall k :: 0 <= k < |r| ==> EndsWith(r[k], ".sql")
    ensures forall n :: n in r <==> n in listing && EndsWith(n, ".sql")
  {
    if listing == [] then []
    else if EndsWith(listing[0], ".sql") then [listing[0]] + SqlFiles(listing[1..])
    else SqlFiles(listing[1..])
  }

  /** Ascending by `LexLe`. */
  predicate NamesSorted(s: seq<string>)
  {
    forall i, j :: 0 <= i < j < |s| ==> LexLe(s[i], s[j])
  }

  /** Places x before the first name of `sorted` that it does not come after. */
  function InsertName(x: string, sorted: seq<string>): (s: seq<string>)
    ensures |s| == |sorted| + 1
    ensures multiset(s) == multiset(sorted) + multiset{x}
  {
    if sorted == [] || LexLe(x, sorted[0]) then [x] + sorted
    else
      assert sorted == [sorted[0]] + sorted[1..];
      [sorted[0]] + InsertName(x, sorted[1..])
  }

  /** `.sort()` with no comparator: ascending by the characters of the names. */
  function SortNames(names: seq<string>): (s: seq<string>)
  {
    if names == [] then [] else InsertName(names[0], SortNames(names[1..]))
  }

  /** Inserting into an ascending list keeps it ascending. */
  lemma {:induction false} InsertNameSorted(x: string, sorted: seq<string>)
    requires NamesSorted(sorted)
    ensures NamesSorted(InsertName(x, sorted))
  {
    if sorted != [] {
      var s0 := sorted[0];
      if LexLe(x, s0) {
        forall j | 0 <= j < |sorted|
          ensures LexLe(x, sorted[j])
        {
          if j > 0 {
            LexLeTransitive(x, s0, sorted[j]);
          }
        }
        ConsSorted(x, sorted);
      } else {
        LexLeTotal(x, s0);
        var rest := sorted[1..];
        TailSorted(sorted);
        InsertNameSorted(x, rest);
        InsertNameAbove(s0, x, rest);
        ConsSorted(s0, InsertName(x, rest));
      }
    }
  }

  /** The tail of an ascending list is ascending. */
  lemma TailSorted(s: seq<string>)
    requires NamesSorted(s) && s != []
    ensures NamesSorted(s[1..])
  {
    var rest := s[1..];
    forall i, j | 0 <= i < j < |rest|
      ensures LexLe(rest[i], rest[j])
    {
      assert rest[i] == s[i + 1] && rest[j] == s[j + 1];
    }
  }

  /** A name that comes before every name of an ascending list can head it. */
  lemma ConsSorted(x: string, s: seq<string>)
    requires NamesSorted(s) && forall j :: 0 <= j < |s| ==> LexLe(x, s[j])
    ensures NamesSorted([x] + s)
  {
    var t := [x] + s;
    forall i, j | 0 <= i < j < |t|
      ensures LexLe(t[i], t[j])
    {
      assert t[j] == s[j - 1];
      if i > 0 {
        assert t[i] == s[i - 1];
      }
    }
  }

  /** A lower bound of x and of every name of `rest` bounds every name after the insertion. */
  lemma InsertNameAbove(lo: string, x: string, rest: seq<string>)
    requires LexLe(lo, x) && forall m :: 0 <= m < |rest| ==> LexLe(lo, rest[m])
    ensures forall j :: 0 <= j < |InsertName(x, rest)| ==> LexLe(lo, InsertName(x, rest)[j])
  {
    var t := InsertName(x, rest);
    forall j | 0 <= j < |t|
      ensures LexLe(lo, t[j])
    {
      assert t[j] in multiset(t);
      if t[j] != x {
        assert t[j] in multiset(rest);
        var m :| 0 <= m < |rest| && rest[m] == t[j];
      }
    }
  }

  /** The sorted names are in ascending order and are the given names, each as often as given. */
  lemma {:induction false} SortNamesSorts(names: seq<string>)
    ensures NamesSorted(SortNames(names))
    ensures multiset(SortNames(names)) == multiset(names)
  {
    if names != [] {
      SortNamesSorts(names[1..]);
      InsertNameSorted(names[0], SortNames(names[1..]));
      assert names == [names[0]] + names[1..];
    }
  }

  /** The files the run goes through, in order. */
  function Planned(listing: seq<string>): (files: seq<string>)
  {
    SortNames(SqlFiles(listing))
  }

  /**
   * The plan holds exactly the listed names that end in `.sql`, each as
   * often as the listing does, in ascending order.
   */
  lemma PlannedAreSortedSqlFiles(listing: seq<string>)
    ensures NamesSorted(Planned(listing))
    ensures multiset(Planned(listing)) == multiset(SqlFiles(listing))
    ensures forall n :: n in Planned(listing) <==> n in listing && EndsWith(n, ".sql")
  {
    SortNamesSorts(SqlFiles(listing));
    forall n
      ensures n in Planned(listing) <==> n in SqlFiles(listing)
    {
      assert n in Planned(listing) <==> n in multiset(Planned(listing));
      assert n in SqlFiles(listing) <==> n in multiset(SqlFiles(listing));
    }
  }

  /** No name occurs twice. */
  predicate Distinct(s: seq<string>)
  {
    forall i, j :: 0 <= i < j < |s| ==> s[i] != s[j]
  }

  /** Each name occurs at most once in a list of distinct names. */
  lemma {:induction false} DistinctCounts(s: seq<string>, x: string)
    requires Distinct(s)
    ensures multiset(s)[x] <= 1
  {
    if s != [] {
      var rest := s[1..];
      assert Distinct(rest) by {
        forall i, j | 0 <= i < j < |rest|
          ensures rest[i] != rest[j]
        {
          assert rest[i] == s[i + 1] && rest[j] == s[j + 1];
        }
      }
      DistinctCounts(rest, x);
      assert s == [s[0]] + rest;
      if s[0] == x {
        assert x !in rest;
      }
    }
  }

  /** Two equal names in a sequence count twice. */
  lemma RepeatCounts(s: seq<string>, i: nat, j: nat)
    requires i < j < |s| && s[i] == s[j]
    ensures multiset(s)[s[i]] >= 2
  {
    assert s == s[..i] + [s[i]] + s[i + 1..j] + [s[j]] + s[j + 1..];
  }

  /** The filter keeps distinct names distinct. */
  lemma {:induction false} SqlFilesDistinct(listing: seq<string>)
    requires Distinct(listing)
    ensures Distinct(SqlFiles(listing))
  {
    if listing != [] {
      var rest := listing[1..];
      assert Distinct(rest) by {
        forall i, j | 0 <= i < j < |rest|
          ensures rest[i] != rest[j]
        {
          assert rest[i] == listing[i + 1] && rest[j] == listing[j + 1];
        }
      }
      SqlFilesDistinct(rest);
      if EndsWith(listing[0], ".sql") {
        assert listing[0] !in rest;
      }
    }
  }

  /** A directory lists each name once, so the plan names each file once. */
  lemma PlannedDistinct(listing: seq<string>)
    requires Distinct(listing)
    ensures Distinct(Planned(listing))
  {
    SqlFilesDistinct(listing);
    SortNamesSorts(SqlFiles(listing));
    var p := Planned(listing);
    forall i, j | 0 <= i < j < |p|
      ensures p[i] != p[j]
    {
      if p[i] == p[j] {
        RepeatCounts(p, i, j);
        DistinctCounts(SqlFiles(listing), p[i]);
        assert false;
      }
    }
  }

  // ---------------------------------------------------------------------------
  // Applying the files

  /** What the run reports for a file it read: `OK f` or `Failed f ...`. */
  datatype Attempt = Applied(file: string) | Failed(file: string)

  /** The recorded result of applying file f: it fails iff its query fails. */
  function AttemptOf(f: string, queryFails: set<string>): (a: Attempt)
    ensures a.file == f && (a.Failed? <==> f in queryFails)
  {
    if f in queryFails then Failed(f) else Applied(f)
  }

  /** How many files are read before the first that cannot be. */
  function ReadableCount(files: seq<string>, contents: map<string, string>): (n: nat)
    ensures n <= |files|
    ensures forall k :: 0 <= k < n ==> files[k] in contents
    ensures n < |files| ==> files[n] !in contents
  {
    if files == [] || files[0] !in contents then 0 else 1 + ReadableCount(files[1..], contents)
  }

  /** How the script ends. */
  datatype Outcome =
    | MissingEnv     // exit 1 before any connection
    | NoDirectory    // nothing to do
    | ConnectFailed  // `getConnection` rejects: exit 1
    | Ran(attempts: seq<Attempt>, readFailed: bool)

  /** The process's exit status. A failed query does not change it; an unreadable file does. */
  function ExitCode(out: Outcome): (code: int)
    ensures code == 0 <==> out.NoDirectory? || (out.Ran? && !out.readFailed)
    ensures code == 0 || code == 1
  {
    match out
    case MissingEnv => 1
    case NoDirectory => 0
    case ConnectFailed => 1
    case Ran(_, readFailed) => if readFailed then 1 else 0
  }

  /** What a run does, from its inputs. */
  function Expected(env: DbEnv, dirExists: bool, listing: seq<string>, contents: map<string, string>,
                    connectFails: bool, queryFails: set<string>): (out: Outcome)
  {
    if !EnvComplete(env) then MissingEnv
    else if !dirExists then NoDirectory
    else if connectFails then ConnectFailed
    else
      var files := Planned(listing);
      var n := ReadableCount(files, contents);
      Ran(seq(n, k requires 0 <= k < n => AttemptOf(files[k], queryFails)), n < |files|)
  }

  /**
   * The script: the environment check, the directory check, the connection,
   * then one query per planned file; a read failure leaves the loop.
   */
  method RunMigrations(env: DbEnv, dirExists: bool, listing: seq<string>, contents: map<string, string>,
                       connectFails: bool, queryFails: set<string>) returns (out: Outcome)
    ensures out == Expected(env, dirExists, listing, contents, connectFails, queryFails)
  {
    if !(Set(env.host) && Set(env.user) && Set(env.pass) && Set(env.name)) {
      return MissingEnv;
    }
    if !dirExists {
      return NoDirectory;
    }
    var files := SortNames(SqlFiles(listing));
    if connectFails {
      return ConnectFailed;
    }
    var attempts: seq<Attempt> := [];
    var readFailed := false;
    var i := 0;
    while i < |files| && !readFailed
      invariant i <= |files|
      invariant forall k :: 0 <= k < i ==> files[k] in contents
      invariant readFailed ==> i < |files| && files[i] !in contents
      invariant |attempts| == i && forall k :: 0 <= k < i ==> attempts[k] == AttemptOf(files[k], queryFails)
      decreases |files| - i, if readFailed then 0 else 1
    {
      var f := files[i];
      if f !in contents {
        readFailed := true;
      } else {
        if f in queryFails {
          attempts := attempts + [Failed(f)];
        } else {
          attempts := attempts + [Applied(f)];
        }
        i := i + 1;
      }
    }
    assert i == ReadableCount(files, contents);
    out := Ran(attempts, readFailed);
  }

  // ---------------------------------------------------------------------------
  // Properties of a run

  /**
   * Files are attempted in the planned order, each at most once: the k-th
   * attempt is the k-th planned file, and with distinct names no file is
   * attempted twice.
   */
  lemma AttemptsFollowPlan(env: DbEnv, listing: seq<string>, contents: map<string, string>, queryFails: set<string>)
    requires EnvComplete(env)
    ensures var out := Expected(env, true, listing, contents, false, queryFails);
      && out.Ran?
      && |out.attempts| <= |Planned(listing)|
      && (forall k :: 0 <= k < |out.attempts| ==> out.attempts[k].file == Planned(listing)[k])
      && (forall i, j :: 0 <= i < j < |out.attempts| ==> LexLe(out.attempts[i].file, out.attempts[j].file))
      && (Distinct(listing) ==> forall i, j :: 0 <= i < j < |out.attempts| ==> out.attempts[i].file != out.attempts[j].file)
  {
    PlannedAreSortedSqlFiles(listing);
    if Distinct(listing) {
      PlannedDistinct(listing);
    }
  }

  /**
   * A failing query does not stop the run: which files are attempted does
   * not depend on which queries fail, and when every file can be read, every
   * planned file is attempted and the script exits with 0.
   */
  lemma FailuresAreIsolated(env: DbEnv, listing: seq<string>, contents: map<string, string>, f1: set<string>, f2: set<string>)
    requires EnvComplete(env)
    ensures var o1, o2 := Expected(env, true, listing, contents, false, f1), Expected(env, true, listing, contents, false, f2);
      && |o1.attempts| == |o2.attempts|
      && (forall k :: 0 <= k < |o1.attempts| ==> o1.attempts[k].file == o2.attempts[k].file)
      && o1.readFailed == o2.readFailed
    ensures (forall f :: f in Planned(listing) ==> f in contents) ==> (
      var out := Expected(env, true, listing, contents, false, f1);
      && |out.attempts| == |Planned(listing)|
      && (forall k :: 0 <= k < |out.attempts| ==>
            out.attempts[k].file == Planned(listing)[k] && (out.attempts[k].Failed? <==> Planned(listing)[k] in f1))
      && ExitCode(out) == 0)
  {
  }

  /** An unreadable planned file ends the run there, with exit status 1: no later file is attempted. */
  lemma ReadFailureStops(env: DbEnv, listing: seq<string>, contents: map<string, string>, queryFails: set<string>, i: nat)
    requires EnvComplete(env)
    requires i < |Planned(listing)| && Planned(listing)[i] !in contents
    ensures var out := Expected(env, true, listing, contents, false, queryFails);
      && |out.attempts| <= i && out.readFailed && ExitCode(out) == 1
      && forall k :: 0 <= k < |out.attempts| ==> out.attempts[k].file in contents
  {
  }

  /** Nothing is attempted without the full configuration, without the directory, or without a connection. */
  lemma NoAttemptWithoutConnection(env: DbEnv, dirExists: bool, listing: seq<string>, contents: map<string, string>,
                                   connectFails: bool, queryFails: set<string>)
    requires !EnvComplete(env) || !dirExists || connectFails
    ensures var out := Expected(env, dirExists, listing, contents, connectFails, queryFails);
      && !out.Ran?
      && (ExitCode(out) == 0 <==> EnvComplete(env) && !dirExists)
  {
  }
}
