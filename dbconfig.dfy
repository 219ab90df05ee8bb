/**
 * config/database.py: the SQL Server settings DatabaseConfig reads from the
 * environment, and the ODBC connection string get_connection_string builds
 * from them. A setting that is not in the environment is Python's None and
 * is written into the string as the text "None".
 */
module DbConfig {
  import opened Wrappers
  import opened Text

  /** The environment variables DatabaseConfig reads; each may be unset. */
  datatype Environment = Environment(
    dbServer: Option<string>,
    dbName: Option<string>,
    dbUser: Option<string>,
    dbPassword: Option<string>,
    dbDriver: Option<string>,
    dbTrustedConnection: Option<string>)

  datatype DatabaseConfig = DatabaseConfig(
    server: Option<string>,
    database: Option<string>,
    username: Option<string>,
    password: Option<string>,
    driver: Option<string>,
    trustedConnection: bool)

  /** The spellings of "yes" in any letter case. */
  predicate SpellsYes(s: string)
  {
    |s| == 3 && (s[0] == 'y' || s[0] == 'Y') && (s[1] == 'e' || s[1] == 'E') && (s[2] == 's' || s[2] == 'S')
  }

  /** DB_TRUSTED_CONNECTION turns trusted authentication on only when set, non-empty and "yes" once lower-cased. */
  function TrustedFlag(value: Option<string>): (trusted: bool)
    ensures trusted <==> value.Some? && SpellsYes(value.value)
  {
    var on := value.Some? && value.value != "" && Lower(value.value) == "yes";
    assert on <==> value.Some? && SpellsYes(value.value) by {
      if value.Some? && |value.value| == 3 {
        var v := value.value;
        assert Lower(v) == [LowerChar(v[0]), LowerChar(v[1]), LowerChar(v[2])];
      } else if value.Some? {
        assert |Lower(value.value)| != 3;
      }
    }
    on
  }

  /** DatabaseConfig(): every setting as the environment has it, the trusted flag parsed. */
  function FromEnvironment(env: Environment): (c: DatabaseConfig)
    ensures c.server == env.dbServer && c.database == env.dbName && c.driver == env.dbDriver
    ensures c.username == env.dbUser && c.password == env.dbPassword
    ensures c.trustedConnection <==> env.dbTrustedConnection.Some? && SpellsYes(env.dbTrustedConnection.value)
  {
    DatabaseConfig(env.dbServer, env.dbName, env.dbUser, env.dbPassword, env.dbDriver,
                   TrustedFlag(env.dbTrustedConnection))
  }

  /** A value as a Python f-string writes it: None becomes the text "None". */
  function Shown(v: Option<string>): string
  {
    if v.Some? then v.value else "None"
  }

  // ---------------------------------------------------------------------
  // The connection string
  // ---------------------------------------------------------------------

  /** The keywords get_connection_string writes. */
  datatype Key = Driver | Server | Database | TrustedConnection | Uid | Pwd

  function KeyText(k: Key): string
  {
    match k
    case Driver => "DRIVER"
    case Server => "SERVER"
    case Database => "DATABASE"
    case TrustedConnection => "Trusted_Connection"
    case Uid => "UID"
    case Pwd => "PWD"
  }

  /** The keyword a text names, if any. */
  function ParseKey(text: string): (k: Option<Key>)
    ensures k.Some? ==> KeyText(k.value) == text
  {
    if text == "DRIVER" then Some(Driver)
    else if text == "SERVER" then Some(Server)
    else if text == "DATABASE" then Some(Database)
    else if text == "Trusted_Connection" then Some(TrustedConnection)
    else if text == "UID" then Some(Uid)
    else if text == "PWD" then Some(Pwd)
    else None
  }

  /** Every keyword is read back from its text, and no keyword text holds '=' or ';'. */
  lemma KeyTextReadsBack(k: Key)
    ensures ParseKey(KeyText(k)) == Some(k)
    ensures '=' !in KeyText(k) && ';' !in KeyText(k)
  {
    match k
    case Driver =>
    case Server => assert "SERVER" != "DRIVER" by { assert "SERVER"[0] != "DRIVER"[0]; }
    case Database => assert "DATABASE" != "DRIVER" && "DATABASE" != "SERVER" by { assert |"DATABASE"| == 8; }
    case TrustedConnection =>
      assert "Trusted_Connection" != "DRIVER" && "Trusted_Connection" != "SERVER" && "Trusted_Connection" != "DATABASE" by {
        assert |"Trusted_Connection"| == 18;
      }
    case Uid =>
      assert "UID" != "DRIVER" && "UID" != "SERVER" && "UID" != "DATABASE" && "UID" != "Trusted_Connection" by {
        assert |"UID"| == 3;
      }
    case Pwd =>
      assert "PWD" != "DRIVER" && "PWD" != "SERVER" && "PWD" != "DATABASE" && "PWD" != "Trusted_Connection" by {
        assert |"PWD"| == 3;
      }
      assert "PWD" != "UID" by { assert "PWD"[0] != "UID"[0]; }
  }

  /** One KEY=value; part of an ODBC connection string. */
  datatype Segment = Segment(key: Key, value: string)

  /** The parts get_connection_string writes, in order. */
  function Segments(c: DatabaseConfig): seq<Segment>
  {
    CommonSegments(c)
    + if c.trustedConnection then [Segment(TrustedConnection, "yes")]
      else [Segment(Uid, Shown(c.username)), Segment(Pwd, Shown(c.password))]
  }

  /** One part as the f-string writes it: KEY=value; */
  function Part(key: string, value: string): string
  {
    key + "=" + value + ";"
  }

  /** The parts written one after another. */
  function Render(segments: seq<Segment>): string
    decreases |segments|
  {
    if |segments| == 0 then ""
    else Part(KeyText(segments[0].key), segments[0].value) + Render(segments[1..])
  }

  /** get_connection_string. */
  function ConnectionString(c: DatabaseConfig): string
  {
    Render(Segments(c))
  }

  /** The DRIVER, SERVER and DATABASE parts both forms begin with, in that order. */
  function CommonPrefix(c: DatabaseConfig): string
  {
    Part("DRIVER", Shown(c.driver)) + Part("SERVER", Shown(c.server)) + Part("DATABASE", Shown(c.database))
  }

  lemma {:induction false} RenderAppend(a: seq<Segment>, b: seq<Segment>)
    ensures Render(a + b) == Render(a) + Render(b)
    decreases |a|
  {
    if |a| > 0 {
      assert (a + b)[0] == a[0];
      assert (a + b)[1..] == a[1..] + b;
      RenderAppend(a[1..], b);
      var p := Part(KeyText(a[0].key), a[0].value);
      assert p + (Render(a[1..]) + Render(b)) == (p + Render(a[1..])) + Render(b);
    } else {
      assert a + b == b;
    }
  }

  lemma RenderOne(x: Segment)
    ensures Render([x]) == Part(KeyText(x.key), x.value)
  {
    assert [x][1..] == [];
  }

  /** The three parts both forms begin with. */
  function CommonSegments(c: DatabaseConfig): seq<Segment>
  {
    [Segment(Driver, Shown(c.driver)), Segment(Server, Shown(c.server)), Segment(Database, Shown(c.database))]
  }

  lemma RenderCommon(c: DatabaseConfig)
    ensures Render(CommonSegments(c)) == CommonPrefix(c)
  {
    var s := CommonSegments(c);
    assert s[1..] == [s[1], s[2]];
    assert s[1..][1..] == [s[2]];
    RenderOne(s[2]);
  }

  lemma RenderCredentials(user: string, password: string)
    ensures Render([Segment(Uid, user), Segment(Pwd, password)]) == Part("UID", user) + Part("PWD", password)
  {
    var s := [Segment(Uid, user), Segment(Pwd, password)];
    assert s[1..] == [s[1]];
    RenderOne(s[1]);
  }

  /** The trusted form: the common parts, then Trusted_Connection=yes; and nothing else. */
  lemma TrustedConnectionString(c: DatabaseConfig)
    requires c.trustedConnection
    ensures ConnectionString(c) == CommonPrefix(c) + Part("Trusted_Connection", "yes")
  {
    var last := Segment(TrustedConnection, "yes");
    assert Segments(c) == CommonSegments(c) + [last];
    RenderAppend(CommonSegments(c), [last]);
    RenderCommon(c);
    RenderOne(last);
  }

  /** The untrusted form: the common parts, then UID=<username>; and PWD=<password>;. */
  lemma UntrustedConnectionString(c: DatabaseConfig)
    requires !c.trustedConnection
    ensures ConnectionString(c) == CommonPrefix(c) + Part("UID", Shown(c.username)) + Part("PWD", Shown(c.password))
  {
    var credentials := [Segment(Uid, Shown(c.username)), Segment(Pwd, Shown(c.password))];
    assert Segments(c) == CommonSegments(c) + credentials;
    RenderAppend(CommonSegments(c), credentials);
    RenderCommon(c);
    RenderCredentials(Shown(c.username), Shown(c.password));
    var a, b, d := CommonPrefix(c), Part("UID", Shown(c.username)), Part("PWD", Shown(c.password));
    assert a + (b + d) == a + b + d;
  }

  // ---------------------------------------------------------------------
  // Reading a connection string back into its parts
  // ---------------------------------------------------------------------

  /** Each part as the text KEY=value, without its semicolon. */
  function Pieces(segments: seq<Segment>): (pieces: seq<string>)
    ensures |pieces| == |segments|
    ensures forall i :: 0 <= i < |segments| ==> pieces[i] == KeyText(segments[i].key) + "=" + segments[i].value
  {
    seq(|segments|, i requires 0 <= i < |segments| => KeyText(segments[i].key) + "=" + segments[i].value)
  }

  /** The pieces split at their first '=' into a keyword and a value; any other piece is malformed. */
  function ParsePieces(pieces: seq<string>): Option<seq<Segment>>
    decreases |pieces|
  {
    if |pieces| == 0 then Some([])
    else
      var i := IndexOf(pieces[0], '=');
      if i == |pieces[0]| then None
      else match (ParseKey(pieces[0][..i]), ParsePieces(pieces[1..]))
        case (Some(k), Some(rest)) => Some([Segment(k, pieces[0][i + 1..])] + rest)
        case _ => None
  }

  /** A connection string read back: pieces between semicolons, the last of them closed. */
  function ParseSegments(s: string): Option<seq<Segment>>
  {
    var pieces := Split(s, ';');
    if pieces[|pieces| - 1] != "" then None else ParsePieces(pieces[..|pieces| - 1])
  }

  /** Parts that can be read back unambiguously: no value holds a semicolon. */
  predicate Separable(segments: seq<Segment>)
  {
    forall i :: 0 <= i < |segments| ==> ';' !in segments[i].value
  }

  /** Writing the parts is joining their pieces, and an empty last piece, with semicolons. */
  lemma {:induction false} RenderIsJoin(segments: seq<Segment>)
    ensures Render(segments) == Join(Pieces(segments) + [""], ';')
    decreases |segments|
  {
    if |segments| > 0 {
      RenderIsJoin(segments[1..]);
      var ps := Pieces(segments) + [""];
      assert ps[1..] == Pieces(segments[1..]) + [""];
      assert |ps| > 1;
      assert Part(KeyText(segments[0].key), segments[0].value) == ps[0] + [';'];
    }
  }

  lemma {:induction false} ParsePiecesOfPieces(segments: seq<Segment>)
    ensures ParsePieces(Pieces(segments)) == Some(segments)
    decreases |segments|
  {
    if |segments| > 0 {
      var ps := Pieces(segments);
      var k := KeyText(segments[0].key);
      var v := segments[0].value;
      assert ps[0] == k + ['='] + v;
      KeyTextReadsBack(segments[0].key);
      IndexOfPrefix(k, '=', v);
      assert ps[0][..|k|] == k && ps[0][|k| + 1..] == v;
      assert ps[1..] == Pieces(segments[1..]);
      ParsePiecesOfPieces(segments[1..]);
      assert [segments[0]] + segments[1..] == segments;
    }
  }

  /** Separable parts are read back exactly from the text they are written as. */
  lemma RenderReadsBack(segments: seq<Segment>)
    requires Separable(segments)
    ensures ParseSegments(Render(segments)) == Some(segments)
  {
    var ps := Pieces(segments) + [""];
    RenderIsJoin(segments);
    assert forall p :: p in ps ==> ';' !in p by {
      forall p | p in ps
        ensures ';' !in p
      {
        var i :| 0 <= i < |ps| && ps[i] == p;
        if i < |segments| {
          KeyTextReadsBack(segments[i].key);
          assert p == KeyText(segments[i].key) + "=" + segments[i].value;
        }
      }
    }
    SplitJoin(ps, ';');
    assert ps[..|ps| - 1] == Pieces(segments);
    ParsePiecesOfPieces(segments);
  }

  /** When no setting contains a semicolon, the connection string reads back into its parts. */
  lemma ConnectionStringReadsBack(c: DatabaseConfig)
    requires ';' !in Shown(c.driver) && ';' !in Shown(c.server) && ';' !in Shown(c.database)
    requires ';' !in Shown(c.username) && ';' !in Shown(c.password)
    ensures ParseSegments(ConnectionString(c)) == Some(Segments(c))
  {
    var s := Segments(c);
    assert Separable(s) by {
      forall i | 0 <= i < |s|
        ensures ';' !in s[i].value
      {
        if c.trustedConnection {
          assert s[i].value in [Shown(c.driver), Shown(c.server), Shown(c.database), "yes"];
        } else {
          assert s[i].value in [Shown(c.driver), Shown(c.server), Shown(c.database), Shown(c.username), Shown(c.password)];
        }
      }
    }
    RenderReadsBack(s);
  }

  /**
   * The trusted form has no UID or PWD part; the untrusted form carries the
   * user name and the password and no Trusted_Connection part.
   */
  lemma CredentialsOnlyWhenUntrusted(c: DatabaseConfig)
    ensures c.trustedConnection <==> forall seg :: seg in Segments(c) ==> seg.key != Uid && seg.key != Pwd
    ensures !c.trustedConnection <==> forall seg :: seg in Segments(c) ==> seg.key != TrustedConnection
    ensures !c.trustedConnection ==> Segment(Uid, Shown(c.username)) in Segments(c) && Segment(Pwd, Shown(c.password)) in Segments(c)
  {
    var common := CommonSegments(c);
    if c.trustedConnection {
      var s := common + [Segment(TrustedConnection, "yes")];
      assert Segments(c) == s;
      assert s[3] in s;
    } else {
      var s := common + [Segment(Uid, Shown(c.username)), Segment(Pwd, Shown(c.password))];
      assert Segments(c) == s;
      assert s[3] in s && s[4] in s;
    }
  }
}
