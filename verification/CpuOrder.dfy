/** The CPU records and the order cpu_compare puts them in. */
module CpuOrder {

  /** struct cpu_info, without the parts no decision depends on. */
  datatype Cpu = Cpu(
    cpuNumber: int,
    threadId: int,
    coreId: int,
    moduleId: int,
    tileId: int,
    numaId: int,
    packageId: int)

  predicate Int16(x: int) {
    -0x8000 <= x < 0x8000
  }

  predicate Int32(x: int) {
    -0x8000_0000 <= x < 0x8000_0000
  }

  predicate CpuOk(c: Cpu) {
    && Int32(c.cpuNumber)
    && Int16(c.threadId) && Int16(c.coreId) && Int16(c.moduleId)
    && Int16(c.tileId) && Int16(c.numaId) && Int16(c.packageId)
  }

  /** The bit pattern of a 16- or 32-bit integer read as unsigned: -1 becomes the largest value. */
  function U16(x: int): int {
    if x < 0 then x + 0x1_0000 else x
  }

  function U32(x: int): int {
    if x < 0 then x + 0x1_0000_0000 else x
  }

  /** The eight bytes from module_id on, as a little-endian word. */
  function HighWord(c: Cpu): int {
    U16(c.moduleId) + 0x1_0000 * U16(c.tileId) + 0x1_0000_0000 * U16(c.numaId) + 0x1_0000_0000_0000 * U16(c.packageId)
  }

  /** The eight bytes from cpu_number on, as a little-endian word. */
  function LowWord(c: Cpu): int {
    U32(c.cpuNumber) + 0x1_0000_0000 * U16(c.threadId) + 0x1_0000_0000_0000 * U16(c.coreId)
  }

  /** cpu_compare */
  predicate Less(a: Cpu, b: Cpu) {
    HighWord(a) < HighWord(b) || (HighWord(a) == HighWord(b) && LowWord(a) < LowWord(b))
  }

  /** The ids of a CPU, most significant first. */
  function Key(c: Cpu): seq<int> {
    [U16(c.packageId), U16(c.numaId), U16(c.tileId), U16(c.moduleId), U16(c.coreId), U16(c.threadId), U32(c.cpuNumber)]
  }

  predicate LexLess(s: seq<int>, t: seq<int>)
    requires |s| == |t|
  {
    |s| > 0 && (s[0] < t[0] || (s[0] == t[0] && LexLess(s[1..], t[1..])))
  }

  lemma LexFrom(s: seq<int>, t: seq<int>, k: nat)
    requires |s| == |t| && k < |s|
    ensures LexLess(s[k..], t[k..]) <==> s[k] < t[k] || (s[k] == t[k] && LexLess(s[k + 1..], t[k + 1..]))
  {
    assert s[k..][1..] == s[k + 1..] && t[k..][1..] == t[k + 1..];
  }

  lemma LexSeven(s: seq<int>, t: seq<int>)
    requires |s| == 7 && |t| == 7
    ensures LexLess(s, t) <==>
              || s[0] < t[0]
              || (s[0] == t[0] &&
                  (|| s[1] < t[1]
                   || (s[1] == t[1] &&
                       (|| s[2] < t[2]
                        || (s[2] == t[2] &&
                            (|| s[3] < t[3]
                             || (s[3] == t[3] &&
                                 (|| s[4] < t[4]
                                  || (s[4] == t[4] &&
                                      (s[5] < t[5] || (s[5] == t[5] && s[6] < t[6])))))))))))
  {
    assert s[0..] == s && t[0..] == t;
    LexFrom(s, t, 0);
    LexFrom(s, t, 1);
    LexFrom(s, t, 2);
    LexFrom(s, t, 3);
    LexFrom(s, t, 4);
    LexFrom(s, t, 5);
    LexFrom(s, t, 6);
  }

  /** Two numbers put together from a high part and a low part of 16 or 32 bits. */
  lemma Packed(base: int, a: int, x: int, b: int, y: int)
    requires 0 <= x < base && 0 <= y < base && (base == 0x1_0000 || base == 0x1_0000_0000)
    ensures x + base * a < y + base * b <==> a < b || (a == b && x < y)
    ensures x + base * a == y + base * b <==> a == b && x == y
  {
  }

  /** Equal high words agree in the four ids; otherwise the first that differs decides. */
  lemma HighOrder(a: Cpu, b: Cpu)
    requires CpuOk(a) && CpuOk(b)
    ensures HighWord(a) < HighWord(b) <==>
              || U16(a.packageId) < U16(b.packageId)
              || (U16(a.packageId) == U16(b.packageId) &&
                  (|| U16(a.numaId) < U16(b.numaId)
                   || (U16(a.numaId) == U16(b.numaId) &&
                       (|| U16(a.tileId) < U16(b.tileId)
                        || (U16(a.tileId) == U16(b.tileId) && U16(a.moduleId) < U16(b.moduleId))))))
    ensures HighWord(a) == HighWord(b) <==>
              a.packageId == b.packageId && a.numaId == b.numaId && a.tileId == b.tileId && a.moduleId == b.moduleId
  {
    var p, n, t, m := U16(a.packageId), U16(a.numaId), U16(a.tileId), U16(a.moduleId);
    var p', n', t', m' := U16(b.packageId), U16(b.numaId), U16(b.tileId), U16(b.moduleId);
    Packed(0x1_0000, p, n, p', n');
    Packed(0x1_0000, n + 0x1_0000 * p, t, n' + 0x1_0000 * p', t');
    Packed(0x1_0000, t + 0x1_0000 * (n + 0x1_0000 * p), m, t' + 0x1_0000 * (n' + 0x1_0000 * p'), m');
  }

  lemma LowOrder(a: Cpu, b: Cpu)
    requires CpuOk(a) && CpuOk(b)
    ensures LowWord(a) < LowWord(b) <==>
              || U16(a.coreId) < U16(b.coreId)
              || (U16(a.coreId) == U16(b.coreId) &&
                  (|| U16(a.threadId) < U16(b.threadId)
                   || (U16(a.threadId) == U16(b.threadId) && U32(a.cpuNumber) < U32(b.cpuNumber))))
    ensures LowWord(a) == LowWord(b) <==>
              a.coreId == b.coreId && a.threadId == b.threadId && a.cpuNumber == b.cpuNumber
  {
    var c, t, n := U16(a.coreId), U16(a.threadId), U32(a.cpuNumber);
    var c', t', n' := U16(b.coreId), U16(b.threadId), U32(b.cpuNumber);
    Packed(0x1_0000, c, t, c', t');
    Packed(0x1_0000_0000, t + 0x1_0000 * c, n, t' + 0x1_0000 * c', n');
  }

  /** The two packed words order CPUs exactly as the tuple (package, numa, tile, module, core,
      thread, cpu_number), each read as unsigned. */
  lemma CompareIsTupleOrder(a: Cpu, b: Cpu)
    requires CpuOk(a) && CpuOk(b)
    ensures Less(a, b) <==> LexLess(Key(a), Key(b))
  {
    HighOrder(a, b);
    LowOrder(a, b);
    LexSeven(Key(a), Key(b));
  }

  ghost predicate Sorted(cpus: seq<Cpu>) {
    forall i, j :: 0 <= i < j < |cpus| ==> Less(cpus[i], cpus[j])
  }

  /** CPUs that are not ordered either way have the same ids and number. */
  lemma LessTotal(a: Cpu, b: Cpu)
    requires CpuOk(a) && CpuOk(b) && !Less(a, b) && !Less(b, a)
    ensures a == b
  {
    HighOrder(a, b);
    LowOrder(a, b);
  }
}
