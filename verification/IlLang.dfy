/** Instruction List: tokens and statements. */
module IlLang {

  datatype CompareKind = CEq | CNe | CGt | CGe | CLt | CLe

  datatype IlStmt =
    | Load(v: string) | LoadNot(v: string) | Store(v: string)
    | And(v: string) | AndNot(v: string) | Or(v: string) | OrNot(v: string) | Xor(v: string)
    | Add(v: string) | Sub(v: string) | Mul(v: string) | Div(v: string) | Mod(v: string)
    | Cmp(kind: CompareKind, v: string)
    | Jump(target: string) | JumpIf(target: string) | JumpIfNot(target: string)
    | Call(target: string)
    | Return
    | Set(v: string) | Reset(v: string)
    | Not
    | Ton(v: string) | Tof(v: string) | Tp(v: string) | Ctu(v: string) | Ctd(v: string)
    | RTrig(v: string) | FTrig(v: string) | Sr(v: string) | Rs(v: string)
    | Label(name: string)
}
