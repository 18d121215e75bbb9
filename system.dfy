/**
 * Facts about the host (lib/assemblotron/system.rb): the operating system
 * named by the Ruby host string, the processor word size, and whether an
 * assembler's platform table supports the host. The host string and the
 * pointer width are inputs.
 */
module System {
  import opened Wrappers
  import opened Strings

  datatype Os = Windows | MacOsx | Linux | Unix

  /** The symbol name of an operating system, as platform tables spell it. */
  function OsName(os: Os): string
  {
    match os
    case Windows => "windows"
    case MacOsx => "macosx"
    case Linux => "linux"
    case Unix => "unix"
  }

  /** An unanchored regular expression of alternatives matches when one alternative occurs. */
  predicate MatchesAny(host: string, alternatives: seq<string>)
  {
    exists i :: 0 <= i < |alternatives| && Contains(host, alternatives[i])
  }

  const WindowsPattern: seq<string> := ["mswin", "msys", "mingw", "cygwin", "bccwin", "wince", "emc"]
  const MacPattern: seq<string> := ["darwin", "mac os"]
  const LinuxPattern: seq<string> := ["linux"]
  const UnixPattern: seq<string> := ["solaris", "bsd"]

  /**
   * System.os: the first `when` clause whose pattern occurs in the host
   * string decides; a host string no clause matches raises.
   */
  function HostOs(host: string): (r: Result<Os, string>)
    ensures r == Ok(Windows) <==> MatchesAny(host, WindowsPattern)
    ensures r == Ok(MacOsx) <==> !MatchesAny(host, WindowsPattern) && MatchesAny(host, MacPattern)
    ensures r == Ok(Linux) <==>
      !MatchesAny(host, WindowsPattern) && !MatchesAny(host, MacPattern) && MatchesAny(host, LinuxPattern)
    ensures r == Ok(Unix) <==>
      !MatchesAny(host, WindowsPattern) && !MatchesAny(host, MacPattern) && !MatchesAny(host, LinuxPattern)
      && MatchesAny(host, UnixPattern)
    ensures r.Err? ==> r.error == host
  {
    if MatchesAny(host, WindowsPattern) then Ok(Windows)
    else if MatchesAny(host, MacPattern) then Ok(MacOsx)
    else if MatchesAny(host, LinuxPattern) then Ok(Linux)
    else if MatchesAny(host, UnixPattern) then Ok(Unix)
    else Err(host)
  }

  /** The host is recognised exactly when one of the twelve alternatives occurs in it. */
  lemma HostOsKnown(host: string)
    ensures HostOs(host).Ok? <==> MatchesAny(host, WindowsPattern + MacPattern + LinuxPattern + UnixPattern)
  {
    var all := WindowsPattern + MacPattern + LinuxPattern + UnixPattern;
    if MatchesAny(host, all) {
      var i :| 0 <= i < |all| && Contains(host, all[i]);
      if i < 7 {
        assert all[i] == WindowsPattern[i];
      } else if i < 9 {
        assert all[i] == MacPattern[i - 7];
      } else if i < 10 {
        assert all[i] == LinuxPattern[i - 9];
      } else {
        assert all[i] == UnixPattern[i - 10];
      }
    }
    if HostOs(host).Ok? {
      if MatchesAny(host, WindowsPattern) {
        var i :| 0 <= i < 7 && Contains(host, WindowsPattern[i]);
        assert all[i] == WindowsPattern[i];
      } else if MatchesAny(host, MacPattern) {
        var i :| 0 <= i < 2 && Contains(host, MacPattern[i]);
        assert all[7 + i] == MacPattern[i];
      } else if MatchesAny(host, LinuxPattern) {
        assert all[9] == LinuxPattern[0];
      } else {
        var i :| 0 <= i < 2 && Contains(host, UnixPattern[i]);
        assert all[10 + i] == UnixPattern[i];
      }
    }
  }

  /** A pattern earlier in the case wins: a Linux host string mentioning cygwin is Windows. */
  lemma CygwinBeforeLinux(prefix: string, suffix: string)
    ensures HostOs(prefix + "cygwin" + suffix) == Ok(Windows)
  {
    ContainsInfix(prefix, "cygwin", suffix);
    assert WindowsPattern[3] == "cygwin";
  }

  /** A host string without 'm', 'c', 'b' and 'e' matches no Windows alternative. */
  lemma NoWindowsPattern(host: string)
    requires 'm' !in host && 'c' !in host && 'b' !in host && 'e' !in host
    ensures !MatchesAny(host, WindowsPattern)
  {
    MissingChar(host, "mswin", 0);
    MissingChar(host, "msys", 0);
    MissingChar(host, "mingw", 0);
    MissingChar(host, "cygwin", 0);
    MissingChar(host, "bccwin", 0);
    MissingChar(host, "wince", 3);
    MissingChar(host, "emc", 0);
  }

  /**
   * A Linux host string such as "linux-gnu": "linux" followed by text
   * without the letters the Windows and Mac alternatives need is Linux.
   */
  lemma LinuxHost(suffix: string)
    requires 'm' !in suffix && 'c' !in suffix && 'b' !in suffix && 'e' !in suffix && 'd' !in suffix
    ensures HostOs("linux" + suffix) == Ok(Linux)
  {
    var host := "linux" + suffix;
    assert 'm' !in host && 'c' !in host && 'b' !in host && 'e' !in host && 'd' !in host;
    ContainsInfix("", "linux", suffix);
    assert MatchesAny(host, LinuxPattern) by {
      assert [] + "linux" + suffix == host;
      assert LinuxPattern[0] == "linux";
    }
    NoWindowsPattern(host);
    MissingChar(host, "darwin", 0);
    MissingChar(host, "mac os", 0);
  }

  /**
   * A macOS host string such as "darwin19.6.0" is macOS, although it
   * contains "win": no Windows alternative is a bare "win".
   */
  lemma DarwinHost(version: string)
    requires forall i :: 0 <= i < |version| ==> version[i] in "0123456789."
    ensures HostOs("darwin" + version) == Ok(MacOsx)
  {
    var host := "darwin" + version;
    assert 'm' !in host && 'c' !in host && 'b' !in host && 'e' !in host;
    ContainsInfix("", "darwin", version);
    assert MatchesAny(host, MacPattern) by {
      assert [] + "darwin" + version == host;
      assert MacPattern[0] == "darwin";
    }
    NoWindowsPattern(host);
  }

  /** System.wordsize: 32 when a packed pointer is four bytes long, 64 otherwise. */
  function Wordsize(pointerBytes: nat): (bits: nat)
    ensures bits == 32 || bits == 64
    ensures bits == 32 <==> pointerBytes == 4
  {
    if pointerBytes == 4 then 32 else 64
  }

  /**
   * A platform table: for each word-size key ("32bit", "64bit"), the
   * operating-system keys listed under it.
   */
  type PlatformTable = map<string, set<string>>

  /** The word-size key of a platform table. */
  function BitKey(bits: nat): string
  {
    IntToString(bits) + "bit"
  }

  /**
   * System.match?: true when the table lists the host's word size and, under
   * it, the host's operating system. The operating system is looked up only
   * when the word size is listed, so an unknown host raises only then.
   */
  function Match(table: PlatformTable, pointerBytes: nat, host: string): (r: Result<bool, string>)
    ensures r.Err? <==> BitKey(Wordsize(pointerBytes)) in table && HostOs(host).Err?
    ensures r == Ok(true) <==>
      BitKey(Wordsize(pointerBytes)) in table && HostOs(host).Ok?
      && OsName(HostOs(host).value) in table[BitKey(Wordsize(pointerBytes))]
  {
    var bit := BitKey(Wordsize(pointerBytes));
    if bit in table then
      match HostOs(host)
      case Err(e) => Err(e)
      case Ok(os) => Ok(OsName(os) in table[bit])
    else Ok(false)
  }

  /** A table without the host's word size never matches and never consults the host string. */
  lemma MatchIgnoresHostWithoutWordsize(table: PlatformTable, pointerBytes: nat, host: string, other: string)
    requires BitKey(Wordsize(pointerBytes)) !in table
    ensures Match(table, pointerBytes, host) == Match(table, pointerBytes, other) == Ok(false)
  {
  }

  /** The word-size key is "32bit" for a four-byte pointer and "64bit" for any other. */
  lemma BitKeys(pointerBytes: nat)
    ensures BitKey(Wordsize(pointerBytes)) == if pointerBytes == 4 then "32bit" else "64bit"
  {
    assert IntToString(32) == "32" && IntToString(64) == "64";
  }
}
