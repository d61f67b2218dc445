/** A two-register computer: `hlf`, `tpl`, `inc` change a register, `jmp`, `jie`,
    `jio` move the instruction pointer, and the program halts once the pointer
    leaves the program. */
module Day23 {
  import opened Common

  datatype Register = A | B

  datatype Instruction =
    | Half(r: Register)
    | Triple(r: Register)
    | Inc(r: Register)
    | Jump(offset: int)
    | JumpIfEven(r: Register, offset: int)
    | JumpIfOne(r: Register, offset: int)

  /** The size of a `usize`: a negative jump target wraps around modulo this. */
  const Usize: int := 0x1_0000_0000_0000_0000

  /** The new instruction pointer of a taken jump, converted to a `usize`. */
  function Target(ip: nat, offset: int): (t: nat)
    ensures t < Usize
    ensures 0 <= ip + offset < Usize ==> t == ip + offset
    ensures -Usize <= ip + offset < 0 ==> t == Usize + ip + offset
  {
    (ip + offset) % Usize
  }

  /** The registers and instruction pointer of a running program. */
  datatype Machine = Machine(registers: map<Register, nat>, ip: nat)

  predicate HasRegisters(m: Machine)
  {
    forall r: Register :: r in m.registers
  }

  predicate Halted(prog: seq<Instruction>, m: Machine)
  {
    m.ip >= |prog|
  }

  /** One instruction. Arithmetic changes only its own register and moves on by one;
      `jie` jumps on an even register and `jio` only on a register equal to one. */
  function Step(prog: seq<Instruction>, m: Machine): (m': Machine)
    requires HasRegisters(m) && !Halted(prog, m)
    ensures HasRegisters(m')
    ensures prog[m.ip].Half? ==>
      m'.registers[prog[m.ip].r] == m.registers[prog[m.ip].r] / 2 && m'.ip == m.ip + 1
    ensures prog[m.ip].Triple? ==>
      m'.registers[prog[m.ip].r] == 3 * m.registers[prog[m.ip].r] && m'.ip == m.ip + 1
    ensures prog[m.ip].Inc? ==>
      m'.registers[prog[m.ip].r] == m.registers[prog[m.ip].r] + 1 && m'.ip == m.ip + 1
    ensures forall s :: s in m.registers && (prog[m.ip].Jump? || s != prog[m.ip].r) ==>
      m'.registers[s] == m.registers[s]
    ensures !prog[m.ip].Jump? && !prog[m.ip].Half? && !prog[m.ip].Triple? && !prog[m.ip].Inc? ==>
      m'.registers == m.registers
    ensures prog[m.ip].Jump? ==> m'.ip == Target(m.ip, prog[m.ip].offset)
    ensures prog[m.ip].JumpIfEven? ==>
      m'.ip == (if m.registers[prog[m.ip].r] % 2 == 0 then Target(m.ip, prog[m.ip].offset) else m.ip + 1)
    ensures prog[m.ip].JumpIfOne? ==>
      m'.ip == (if m.registers[prog[m.ip].r] == 1 then Target(m.ip, prog[m.ip].offset) else m.ip + 1)
  {
    var regs := m.registers;
    match prog[m.ip]
    case Half(r) => Machine(regs[r := regs[r] / 2], m.ip + 1)
    case Triple(r) => Machine(regs[r := 3 * regs[r]], m.ip + 1)
    case Inc(r) => Machine(regs[r := regs[r] + 1], m.ip + 1)
    case Jump(offset) => Machine(regs, Target(m.ip, offset))
    case JumpIfEven(r, offset) =>
      Machine(regs, if regs[r] % 2 == 0 then Target(m.ip, offset) else m.ip + 1)
    case JumpIfOne(r, offset) =>
      Machine(regs, if regs[r] == 1 then Target(m.ip, offset) else m.ip + 1)
  }

  /** Up to `fuel` instructions, stopping early once the program has halted. */
  function Exec(prog: seq<Instruction>, m: Machine, fuel: nat): (m': Machine)
    requires HasRegisters(m)
    ensures HasRegisters(m')
    decreases fuel
  {
    if fuel == 0 || Halted(prog, m) then m else Exec(prog, Step(prog, m), fuel - 1)
  }

  /** Running `f + g` instructions is running `f` and then `g` more. */
  lemma {:induction false} ExecAdd(prog: seq<Instruction>, m: Machine, f: nat, g: nat)
    requires HasRegisters(m)
    ensures Exec(prog, m, f + g) == Exec(prog, Exec(prog, m, f), g)
    decreases f
  {
    if f > 0 && !Halted(prog, m) {
      ExecAdd(prog, Step(prog, m), f - 1, g);
    } else if f == 0 {
    } else {
      ExecHalted(prog, m, g);
      ExecHalted(prog, m, f + g);
    }
  }

  /** A halted machine stays as it is, however many more steps are allowed. */
  lemma ExecHalted(prog: seq<Instruction>, m: Machine, fuel: nat)
    requires HasRegisters(m) && Halted(prog, m)
    ensures Exec(prog, m, fuel) == m
  {
  }

  /** A jump backwards past the first instruction wraps to a huge pointer and halts:
      a program shorter than 2^31 instructions with 32-bit offsets can never reach it. */
  lemma NegativeJumpHalts(prog: seq<Instruction>, m: Machine)
    requires HasRegisters(m) && !Halted(prog, m) && |prog| < 0x8000_0000
    requires prog[m.ip].Jump? && -0x8000_0000 <= prog[m.ip].offset && m.ip + prog[m.ip].offset < 0
    ensures Halted(prog, Step(prog, m))
  {
  }

  /** The machine: the parsed program, two registers and the instruction pointer. */
  class Computer {
    const instructions: seq<Instruction>
    var registers: map<Register, nat>
    var ip: nat

    ghost predicate Valid()
      reads this
    {
      forall r: Register :: r in registers
    }

    function State(): (m: Machine)
      reads this
      ensures m.registers == registers && m.ip == ip
    {
      Machine(registers, ip)
    }

    /** Both registers start at zero and execution starts at the first instruction. */
    constructor(instructions: seq<Instruction>)
      ensures Valid()
      ensures this.instructions == instructions
      ensures registers == map[A := 0, B := 0] && ip == 0
    {
      this.instructions := instructions;
      registers := map[A := 0, B := 0];
      ip := 0;
      new;
      forall r: Register ensures r in registers {
        if r.A? {} else {}
      }
    }

    /** Executes the instruction under the pointer. */
    method Execute()
      requires Valid() && ip < |instructions|
      modifies this
      ensures Valid()
      ensures State() == Step(instructions, old(State()))
    {
      match instructions[ip] {
        case Half(r) =>
          registers := registers[r := registers[r] / 2];
          ip := ip + 1;
        case Triple(r) =>
          registers := registers[r := 3 * registers[r]];
          ip := ip + 1;
        case Inc(r) =>
          registers := registers[r := registers[r] + 1];
          ip := ip + 1;
        case Jump(offset) =>
          ip := Target(ip, offset);
        case JumpIfEven(r, offset) =>
          if registers[r] % 2 == 0 {
            ip := Target(ip, offset);
          } else {
            ip := ip + 1;
          }
        case JumpIfOne(r, offset) =>
          if registers[r] == 1 {
            ip := Target(ip, offset);
          } else {
            ip := ip + 1;
          }
      }
    }

    /** Executes until the pointer leaves the program, or `fuel` instructions have run. */
    method Run(fuel: nat) returns (halted: bool)
      requires Valid()
      modifies this
      ensures Valid()
      ensures State() == Exec(instructions, old(State()), fuel)
      ensures halted <==> Halted(instructions, State())
    {
      var n := 0;
      while n < fuel && ip < |instructions|
        invariant Valid() && n <= fuel
        invariant Exec(instructions, old(State()), fuel) == Exec(instructions, State(), fuel - n)
      {
        Execute();
        n := n + 1;
      }
      halted := ip >= |instructions|;
    }
  }

  function Initial(): (m: Machine)
    ensures HasRegisters(m) && m.ip == 0
    ensures m.registers[A] == 0 && m.registers[B] == 0
  {
    forall r: Register ensures r in map[A := 0, B := 0] {
      if r.A? {} else {}
    }
    Machine(map[A := 0, B := 0], 0)
  }

  /** Register B once the program halts within `fuel` instructions; `None` if it has not. */
  method Solve1(instructions: seq<Instruction>, fuel: nat) returns (r: Option<nat>)
    ensures r.Some? <==> Halted(instructions, Exec(instructions, Initial(), fuel))
    ensures r.Some? ==> r.value == Exec(instructions, Initial(), fuel).registers[B]
  {
    var computer := new Computer(instructions);
    var halted := computer.Run(fuel);
    r := if halted then Some(computer.registers[B]) else None;
  }

  /** `inc a; jio a, +2; tpl a; inc a`. */
  function Sample(): seq<Instruction>
  {
    [Inc(A), JumpIfOne(A, 2), Triple(A), Inc(A)]
  }

  /** The sample increments A to one, jumps over `tpl a`, increments A again and halts
      after three instructions with A = 2 and B = 0, whatever the remaining fuel. */
  lemma SampleRun(fuel: nat)
    requires fuel >= 3
    ensures Exec(Sample(), Initial(), fuel) == Machine(map[A := 2, B := 0], 4)
  {
    var p := Sample();
    var m1 := Step(p, Initial());
    assert m1 == Machine(map[A := 1, B := 0], 1);
    var m2 := Step(p, m1);
    assert m2 == Machine(map[A := 1, B := 0], 3);
    var m3 := Step(p, m2);
    assert m3 == Machine(map[A := 2, B := 0], 4);
    ExecAdd(p, Initial(), 3, fuel - 3);
    ExecHalted(p, m3, fuel - 3);
  }
}
