/** `java.net.URL` reduced to the four parts the service reads and writes:
    protocol, host, port (-1 when absent) and file (path and query). */
module Urls {
  import Decimal

  /** `URL` rejects ports below -1; -1 stands for "no port". */
  type Port = p: int | p >= -1

  datatype Url = Url(protocol: string, host: string, port: Port, file: string)

  /** The authority `new URL(protocol, host, port, file)` records. */
  function Authority(u: Url): (r: string)
    ensures u.port == -1 ==> r == u.host
    ensures u.port >= 0 ==> |r| > |u.host| && r[..|u.host|] == u.host && r[|u.host|] == ':'
  {
    if u.port == -1 then u.host else u.host + ":" + Decimal.NatToDecimal(u.port)
  }

  /** `URL.toString()`: the protocol, `//` and the authority when there is
      one, then the file. */
  function ExternalForm(u: Url): (r: string)
    ensures |r| > |u.protocol| && r[..|u.protocol| + 1] == u.protocol + ":"
    ensures |r| >= |u.file| && r[|r| - |u.file|..] == u.file
    ensures |Authority(u)| > 0 ==>
              |r| == |u.protocol| + 3 + |Authority(u)| + |u.file|
              && r[|u.protocol| + 1..|r| - |u.file|] == "//" + Authority(u)
    ensures |Authority(u)| == 0 ==> |r| == |u.protocol| + 1 + |u.file|
  {
    var authority := Authority(u);
    u.protocol + ":" + (if |authority| > 0 then "//" + authority else "") + u.file
  }

  /** A console URL with a port and an empty file prints as
      `https://console.io:8443`. */
  lemma ExternalFormExample()
    ensures ExternalForm(Url("https", "console.io", 8443, "")) == "https://console.io:8443"
  {
    var u := Url("https", "console.io", 8443, "");
    ConsoleAuthority();
    var scheme := "https" + ":" + "//";
    assert scheme == "https://";
    assert ExternalForm(u) == scheme + Authority(u) + "";
    assert scheme + "console.io:8443" + "" == "https://console.io:8443";
  }

  /** The example console's authority: host, colon and the four digits of 8443. */
  lemma ConsoleAuthority()
    ensures Authority(Url("https", "console.io", 8443, "")) == "console.io:8443"
  {
    assert Decimal.NatToDecimal(8) == "8";
    assert Decimal.NatToDecimal(84) == "84";
    assert Decimal.NatToDecimal(844) == "844";
    assert Decimal.NatToDecimal(8443) == "8443";
  }
}
