/**
 `struct Env` and the values of env_status (`inc/env.h`).
 */
module Envs {
  import opened Paging

  datatype Status = FREE | DYING | RUNNABLE | RUNNING | NOT_RUNNABLE

  // struct Trapframe; `regs` are the general registers but eax.
  datatype Trapframe = Trapframe(eax: int, regs: seq<int>, eip: int, eflags: int, esp: int,
                                 cs: int, ds: int, es: int, ss: int)

  const USTACKTOP: int := 0xEEBFE000
  const GD_UT: int := 0x18
  const GD_UD: int := 0x20
  const FL_IF: int := 0x200

  // What env_alloc leaves in env_tf: user segments (with privilege level 3), an empty
  // stack, interrupts on, everything else zero.
  const FRESH_TF: Trapframe :=
    Trapframe(0, [0, 0, 0, 0, 0, 0, 0], 0, FL_IF, USTACKTOP, GD_UT + 3, GD_UD + 3, GD_UD + 3, GD_UD + 3)

  // enum EnvType
  datatype EnvType = ENV_TYPE_USER

  /**
   struct Env. `link` is env_link, `pgdir` the page of env_pgdir, `perm`, `value`, `from` and `dstva`
   the env_ipc_ fields, `tf` env_tf, `ty` env_type, `runs` env_runs.
   */
  datatype Env = Env(
    link: Option<nat>, id: int, parent: int, status: Status, pgdir: Option<nat>, upcall: int,
    recving: bool, dstva: nat, value: int, from: int, perm: Perm, pr: int, tf: Trapframe, ty: EnvType,
    runs: nat)
}
