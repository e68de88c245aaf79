/**
 Text search and the ndppd.conf rewriting shared by awg/ndp.go and wg/ndp.go: leftmost non-greedy
 replacement of a marked section, and what applying and stopping a manager do to the file.
 */
module NdppdText {

  // ---- searching ----------------------------------------------------------------------------------

  predicate OccursAt(m: string, t: string, i: nat) {
    i + |m| <= |t| && t[i..i + |m|] == m
  }

  ghost predicate Occurs(m: string, t: string) {
    exists i: nat :: OccursAt(m, t, i)
  }

  datatype Found = Nowhere | At(pos: nat)

  /** The first occurrence of `m`. */
  function Find(t: string, m: string): (r: Found)
    ensures r.At? ==> OccursAt(m, t, r.pos) && forall i: nat :: i < r.pos ==> !OccursAt(m, t, i)
    ensures r.Nowhere? ==> forall i: nat :: !OccursAt(m, t, i)
  {
    if OccursAt(m, t, 0) then At(0)
    else if t == "" then Nowhere
    else
      var r := Find(t[1..], m);
      assert forall i: nat :: i > 0 && OccursAt(m, t, i) ==> OccursAt(m, t[1..], i - 1) by {
        forall i: nat | i > 0 && OccursAt(m, t, i) ensures OccursAt(m, t[1..], i - 1) {
          assert t[1..][i - 1..i - 1 + |m|] == t[i..i + |m|];
        }
      }
      if r.At? then
        assert t[1..][r.pos..r.pos + |m|] == t[r.pos + 1..r.pos + 1 + |m|];
        At(r.pos + 1)
      else Nowhere
  }

  datatype Section = NoSection | Section(before: string, body: string, after: string)

  /** The leftmost match of begin.*?end, shortest body. */
  function MatchSection(t: string, b: string, e: string): (r: Section)
    ensures r.Section? ==> t == r.before + b + (r.body + e + r.after)
    ensures r.Section? ==> |r.after| + |b| + |e| <= |t|
  {
    match Find(t, b)
    case Nowhere => NoSection
    case At(i) =>
      var rest := t[i + |b|..];
      match Find(rest, e)
      case Nowhere => NoSection
      case At(j) =>
        Cut(t, b, i);
        Cut(rest, e, j);
        Section(t[..i], rest[..j], rest[j + |e|..])
  }

  lemma Cut(t: string, b: string, i: nat)
    requires OccursAt(b, t, i)
    ensures t == t[..i] + b + t[i + |b|..]
  {
  }

  /** ReplaceAllString with a replacement that has no '$'. */
  function ReplaceAll(t: string, b: string, e: string, s: string): string
    requires b != ""
    decreases |t|
  {
    match MatchSection(t, b, e)
    case NoSection => t
    case Section(before, _, after) => before + s + ReplaceAll(after, b, e, s)
  }

  // ---- trimming -----------------------------------------------------------------------------------

  /** The characters that Go's unicode.IsSpace accepts. */
  predicate IsSpace(c: char) {
    var n := c as int;
    9 <= n <= 13 || n == 32 || n == 0x85 || n == 0xA0 || n == 0x1680 || 0x2000 <= n <= 0x200A
    || n == 0x2028 || n == 0x2029 || n == 0x202F || n == 0x205F || n == 0x3000
  }

  function TrimLeft(t: string): string {
    if t != "" && IsSpace(t[0]) then TrimLeft(t[1..]) else t
  }

  function TrimRight(t: string): string {
    if t != "" && IsSpace(t[|t| - 1]) then TrimRight(t[..|t| - 1]) else t
  }

  function TrimSpace(t: string): string {
    TrimRight(TrimLeft(t))
  }

  function TrimNewlines(t: string): string {
    if t != "" && t[|t| - 1] == '\n' then TrimNewlines(t[..|t| - 1]) else t
  }

  // ---- the two managers ---------------------------------------------------------------------------

  datatype Manager = Awg | Wg

  function Begin(m: Manager): string {
    match m
    case Awg => "# --- BEGIN AWG ---"
    case Wg => "# --- BEGIN WG ---"
  }

  function End(m: Manager): string {
    match m
    case Awg => "# --- END AWG ---"
    case Wg => "# --- END WG ---"
  }

  const HEADER := "route-ttl 30000"

  const OPTIONS := "    router yes\n    timeout 500\n    ttl 30000\n"

  /** What stands between the markers. */
  function Body(externalIface: string, tunnelIface: string, pool: string): string {
    "\nproxy " + externalIface + " {\n" + OPTIONS + "    rule " + pool
    + " {\n        iface " + tunnelIface + "\n    }\n}\n"
  }

  /** The proxy answers on the external interface, and the rule for the pool points to the tunnel. */
  lemma BodySays(externalIface: string, tunnelIface: string, pool: string)
    ensures var body, first := Body(externalIface, tunnelIface, pool), "\nproxy " + externalIface + " {\n";
            var last := "    rule " + pool + " {\n        iface " + tunnelIface + "\n    }\n}\n";
            first <= body && |last| <= |body| && body[|body| - |last|..] == last
  {
    var first := "\nproxy " + externalIface + " {\n" + OPTIONS;
    OneText(first, "    rule ", pool, " {\n        iface ", tunnelIface, "\n    }\n}\n");
  }

  lemma OneText(x: string, a: string, b: string, c: string, d: string, e: string)
    ensures x + a + b + c + d + e == x + (a + b + c + d + e)
  {
  }

  function Block(m: Manager, body: string): string {
    Begin(m) + body + End(m)
  }

  function Matched(t: string, m: Manager): Section {
    MatchSection(t, Begin(m), End(m))
  }

  function Rewrite(t: string, m: Manager, s: string): string {
    ReplaceAll(t, Begin(m), End(m), s)
  }

  datatype File = Absent | Text(t: string)

  function Apply(f: File, m: Manager, body: string): File {
    var existing := if f.Text? then f.t else "";
    if existing != "" && Matched(existing, m).Section?
    then Text(Rewrite(existing, m, Block(m, body)))
    else if existing != "" then Text(TrimNewlines(existing) + "\n\n" + Block(m, body) + "\n")
    else Text(HEADER + "\n\n" + Block(m, body) + "\n")
  }

  function Stop(f: File, m: Manager): File {
    if f.Absent? then f
    else
      var cleaned := TrimSpace(Rewrite(f.t, m, ""));
      if cleaned == "" || cleaned == HEADER then Absent else Text(cleaned + "\n")
  }

  /** What is written where there was no file, and what is left when nothing but that line was added. */
  lemma NewFileSays(body: string)
    ensures Apply(Absent, Awg, body)
            == Text("route-ttl 30000\n\n# --- BEGIN AWG ---" + body + "# --- END AWG ---\n")
    ensures Apply(Absent, Wg, body)
            == Text("route-ttl 30000\n\n# --- BEGIN WG ---" + body + "# --- END WG ---\n")
  {
    OneMarked("# --- BEGIN AWG ---", body, "# --- END AWG ---");
    OneMarked("# --- BEGIN WG ---", body, "# --- END WG ---");
    assert "route-ttl 30000\n\n" + "# --- BEGIN AWG ---" == "route-ttl 30000\n\n# --- BEGIN AWG ---";
    assert "route-ttl 30000\n\n" + "# --- BEGIN WG ---" == "route-ttl 30000\n\n# --- BEGIN WG ---";
    assert "# --- END AWG ---" + "\n" == "# --- END AWG ---\n" && "# --- END WG ---" + "\n" == "# --- END WG ---\n";
    assert HEADER + "\n\n" == "route-ttl 30000\n\n";
  }

  lemma OneMarked(begin: string, body: string, end: string)
    ensures HEADER + "\n\n" + (begin + body + end) + "\n" == HEADER + "\n\n" + begin + body + (end + "\n")
  {
  }

  /** ndppd.conf as the two services see it. */
  class NdppdConf {
    var file: File

    constructor (f: File)
      ensures file == f
    {
      file := f;
    }

    method ApplyNdppdConfig(m: Manager, externalIface: string, tunnelIface: string, pool: string)
      modifies this
      ensures file == Apply(old(file), m, Body(externalIface, tunnelIface, pool))
    {
      var newSection := Block(m, Body(externalIface, tunnelIface, pool));
      var existing := if file.Text? then file.t else "";
      var result;
      if |existing| > 0 && Matched(existing, m).Section? {
        result := Rewrite(existing, m, newSection);
      } else if |existing| > 0 {
        result := TrimNewlines(existing) + "\n\n" + newSection + "\n";
      } else {
        result := "route-ttl 30000\n\n" + newSection + "\n";
        assert "route-ttl 30000\n\n" == HEADER + "\n\n";
      }
      file := Text(result);
    }

    method StopNdppd(m: Manager)
      modifies this
      ensures file == Stop(old(file), m)
    {
      if file.Absent? {
        return;
      }
      var cleaned := Rewrite(file.t, m, "");
      cleaned := TrimSpace(cleaned);
      if cleaned == "" || cleaned == "route-ttl 30000" {
        file := Absent;
      } else {
        file := Text(cleaned + "\n");
      }
    }
  }
}
